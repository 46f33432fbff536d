/**
 * The queue-provider registry: the providers in registration order, and a
 * dictionary from queue name to provider that compares names with
 * `StringComparer.OrdinalIgnoreCase`. The dictionary is kept keyed by the
 * case-folded name, which is how that comparer identifies keys.
 */
module QueueProviders {
  import opened Wrappers
  import opened Text

  /** A job-queue provider, identified by value. */
  datatype Provider = Provider(id: nat)

  /** The provider the storage registers as its default: the MySQL queue. */
  const MySqlQueueProvider: Provider := Provider(0)

  /** `GetProvider`: the provider registered for `queue` (ignoring case), else the default. */
  function Resolve(byQueue: map<string, Provider>, defaultProvider: Provider, queue: string): Provider
  {
    if Fold(queue) in byQueue then byQueue[Fold(queue)] else defaultProvider
  }

  /** The dictionary after `Dictionary.Add(q, p)` succeeded for every `q` of `queues`, in order. */
  function Register(byQueue: map<string, Provider>, queues: seq<string>, p: Provider): map<string, Provider>
  {
    if queues == [] then byQueue
    else Register(byQueue, queues[..|queues| - 1], p)[Fold(queues[|queues| - 1]) := p]
  }

  /**
   * `Dictionary.Add` of `queues[i]` throws: its name, ignoring case, is
   * already registered, or occurs earlier in the same call.
   */
  predicate Clashes(byQueue: map<string, Provider>, queues: seq<string>, i: nat)
    requires i < |queues|
  {
    Fold(queues[i]) in byQueue || exists j :: 0 <= j < i && Fold(queues[j]) == Fold(queues[i])
  }

  /** The keys of a registered dictionary: the old keys and the folded new names. */
  lemma {:induction false} RegisterKeys(byQueue: map<string, Provider>, queues: seq<string>, p: Provider, key: string)
    ensures key in Register(byQueue, queues, p) <==>
            key in byQueue || exists j :: 0 <= j < |queues| && Fold(queues[j]) == key
  {
    if queues != [] {
      var init := queues[..|queues| - 1];
      RegisterKeys(byQueue, init, p, key);
      if exists j :: 0 <= j < |init| && Fold(init[j]) == key {
        var j :| 0 <= j < |init| && Fold(init[j]) == key;
        assert queues[j] == init[j];
      }
      if exists j :: 0 <= j < |queues| && Fold(queues[j]) == key {
        var j :| 0 <= j < |queues| && Fold(queues[j]) == key;
        if j < |init| { assert init[j] == queues[j]; }
      }
    }
  }

  /** After registration every name of `queues`, in any letter case, resolves to `p`. */
  lemma {:induction false} RegisterResolves(byQueue: map<string, Provider>, queues: seq<string>, p: Provider,
                                            defaultProvider: Provider, queue: string)
    requires exists j :: 0 <= j < |queues| && EqualsIgnoreCase(queues[j], queue)
    ensures Resolve(Register(byQueue, queues, p), defaultProvider, queue) == p
  {
    var last := queues[|queues| - 1];
    if !EqualsIgnoreCase(last, queue) {
      var init := queues[..|queues| - 1];
      var j :| 0 <= j < |queues| && EqualsIgnoreCase(queues[j], queue);
      assert init[j] == queues[j];
      RegisterResolves(byQueue, init, p, defaultProvider, queue);
    }
  }

  /** Registration leaves the resolution of every other name as it was. */
  lemma {:induction false} RegisterKeepsOthers(byQueue: map<string, Provider>, queues: seq<string>, p: Provider,
                                               defaultProvider: Provider, queue: string)
    requires forall j :: 0 <= j < |queues| ==> !EqualsIgnoreCase(queues[j], queue)
    ensures Resolve(Register(byQueue, queues, p), defaultProvider, queue) == Resolve(byQueue, defaultProvider, queue)
  {
    if queues != [] {
      RegisterKeepsOthers(byQueue, queues[..|queues| - 1], p, defaultProvider, queue);
    }
  }

  class ProviderCollection {
    /** `_providers`, in the order they were added; the enumeration of the collection. */
    var providers: seq<Provider>
    /** `_providersByQueue`, keyed by case-folded queue name. */
    var byQueue: map<string, Provider>
    const defaultProvider: Provider

    ghost predicate Valid()
      reads this
    {
      |providers| >= 1 && providers[0] == defaultProvider &&
      forall k :: k in byQueue ==> Fold(k) == k
    }

    constructor (defaultProvider: Provider)
      ensures Valid()
      ensures this.defaultProvider == defaultProvider
      ensures providers == [defaultProvider] && byQueue == map[]
    {
      this.defaultProvider := defaultProvider;
      providers := [defaultProvider];
      byQueue := map[];
    }

    /** The constructor with its null check: a missing default provider is refused. */
    static method New(defaultProvider: Option<Provider>) returns (r: Result<ProviderCollection>)
      ensures r.Err? <==> defaultProvider.None?
      ensures r.Err? ==> r.error == ArgumentNull("defaultProvider")
      ensures r.Ok? ==> fresh(r.value) && r.value.Valid() && r.value.defaultProvider == defaultProvider.value &&
                        r.value.providers == [defaultProvider.value] && r.value.byQueue == map[]
    {
      if defaultProvider.None? {
        return Err(ArgumentNull("defaultProvider"));
      }
      var c := new ProviderCollection(defaultProvider.value);
      return Ok(c);
    }

    /** `GetProvider(queue)`. */
    function GetProvider(queue: string): Provider
      reads this
    {
      Resolve(byQueue, defaultProvider, queue)
    }

    /** The enumeration of the collection. */
    function Enumerate(): seq<Provider>
      reads this
    {
      providers
    }

    /**
     * `Add(provider, queues)`. Null arguments are refused before any change.
     * Otherwise the provider is appended, and the names are inserted one by
     * one; the first name that clashes throws, and by then the provider and
     * the names before it are already registered.
     */
    method Add(provider: Option<Provider>, queues: Option<seq<string>>) returns (r: Outcome)
      requires Valid()
      modifies this
      ensures Valid()
      ensures provider.None? ==> r == Fail(ArgumentNull("provider"))
      ensures provider.Some? && queues.None? ==> r == Fail(ArgumentNull("queues"))
      ensures provider.None? || queues.None? ==> providers == old(providers) && byQueue == old(byQueue)
      ensures provider.Some? && queues.Some? ==>
        var p, qs := provider.value, queues.value;
        providers == old(providers) + [p] &&
        (r.Pass? <==> forall i :: 0 <= i < |qs| ==> !Clashes(old(byQueue), qs, i)) &&
        (r.Pass? ==> byQueue == Register(old(byQueue), qs, p)) &&
        (r.Fail? ==> (r.error == Argument(None) &&
                      exists d :: 0 <= d < |qs| && Clashes(old(byQueue), qs, d) &&
                        (forall i :: 0 <= i < d ==> !Clashes(old(byQueue), qs, i)) &&
                        byQueue == Register(old(byQueue), qs[..d], p)))
    {
      var args := [("provider", provider.Some?), ("queues", queues.Some?)];
      r := CheckNotNull(args);
      if r.Fail? {
        return;
      }
      assert args[0].1 && args[1].1;
      var p, qs := provider.value, queues.value;
      providers := providers + [p];
      var i := 0;
      while i < |qs|
        invariant 0 <= i <= |qs|
        invariant Valid() && providers == old(providers) + [p]
        invariant byQueue == Register(old(byQueue), qs[..i], p)
        invariant forall j :: 0 <= j < i ==> !Clashes(old(byQueue), qs, j)
      {
        RegisterKeys(old(byQueue), qs[..i], p, Fold(qs[i]));
        if Fold(qs[i]) in byQueue {
          if Fold(qs[i]) !in old(byQueue) {
            var j :| 0 <= j < i && Fold(qs[..i][j]) == Fold(qs[i]);
            assert qs[..i][j] == qs[j];
          }
          assert Clashes(old(byQueue), qs, i);
          return Fail(Argument(None));
        }
        assert forall j :: 0 <= j < i ==> qs[..i][j] == qs[j];
        assert qs[..i + 1][..i] == qs[..i];
        FoldIdempotent(qs[i]);
        byQueue := byQueue[Fold(qs[i]) := p];
        i := i + 1;
      }
      assert qs[..i] == qs;
    }
  }
}
