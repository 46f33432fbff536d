/**
 * The storage connection's record operations: routing `FetchNextJob` to a
 * single queue provider, creating a job with its parameters, job parameters,
 * timed-out servers, hashes, and the lowest-score lookup in a set. Every
 * operation runs on one connection of the storage, opened and released
 * around it.
 */
module Connection {
  import opened Wrappers
  import opened Text
  import opened Tables
  import opened QueueProviders
  import opened Storage
  import FetchedJobs
  import JobQueue
  import WriteOnly

  // ---------------------------------------------------------------------
  // FetchNextJob: `queues.Select(GetProvider).Distinct()` must be one provider.
  // ---------------------------------------------------------------------

  /** `Distinct()`: the first occurrence of each provider, in order. */
  function DistinctProviders(ps: seq<Provider>): (r: seq<Provider>)
    ensures forall p :: p in r <==> p in ps
    ensures forall i, j :: 0 <= i < j < |r| ==> r[i] != r[j]
  {
    if ps == [] then []
    else
      var d := DistinctProviders(ps[..|ps| - 1]);
      assert ps == ps[..|ps| - 1] + [ps[|ps| - 1]];
      if ps[|ps| - 1] in d then d else d + [ps[|ps| - 1]]
  }

  /** The providers of the requested queues, one per queue. */
  function ProvidersOf(byQueue: map<string, Provider>, defaultProvider: Provider, queues: seq<string>): seq<Provider>
  {
    seq(|queues|, i requires 0 <= i < |queues| => Resolve(byQueue, defaultProvider, queues[i]))
  }

  /** The distinct providers are exactly one when, and only when, every queue has the first one's provider. */
  lemma SingleDistinctProvider(ps: seq<Provider>)
    requires ps != []
    ensures |DistinctProviders(ps)| == 1 <==> forall i :: 0 <= i < |ps| ==> ps[i] == ps[0]
  {
    var d := DistinctProviders(ps);
    assert ps[0] in ps;
    if forall i :: 0 <= i < |ps| ==> ps[i] == ps[0] {
      assert forall i :: 0 <= i < |d| ==> d[i] in d && d[i] == ps[0];
    }
    if |d| == 1 {
      forall i | 0 <= i < |ps| ensures ps[i] == ps[0] {
        assert ps[i] in ps;
        assert ps[i] in d && ps[0] in d;
      }
    }
  }

  /**
   * The provider `FetchNextJob` hands the call to: null or empty queues throw
   * `ArgumentNullException("queues")`; queues of two different providers
   * throw `InvalidOperationException`; otherwise the one provider.
   */
  function RouteFetch(byQueue: map<string, Provider>, defaultProvider: Provider,
                      queues: Option<seq<string>>): (r: Result<Provider>)
    ensures (queues.None? || queues == Some([])) ==> r == Err(ArgumentNull("queues"))
    ensures queues.Some? && queues.value != [] ==>
      var qs := queues.value;
      var p := Resolve(byQueue, defaultProvider, qs[0]);
      ((forall i :: 0 <= i < |qs| ==> Resolve(byQueue, defaultProvider, qs[i]) == p) ==> r == Ok(p)) &&
      ((exists i :: 0 <= i < |qs| && Resolve(byQueue, defaultProvider, qs[i]) != p) ==> r == Err(InvalidOperation))
  {
    if queues.None? || queues.value == [] then Err(ArgumentNull("queues"))
    else
      var ps := ProvidersOf(byQueue, defaultProvider, queues.value);
      assert forall i :: 0 <= i < |ps| ==> ps[i] == Resolve(byQueue, defaultProvider, queues.value[i]);
      SingleDistinctProvider(ps);
      var d := DistinctProviders(ps);
      if |d| != 1 then Err(InvalidOperation)
      else
        assert ps[0] in d && d[0] == ps[0];
        assert ps[0] == Resolve(byQueue, defaultProvider, queues.value[0]);
        Ok(d[0])
  }

  /** What `FetchNextJob` comes to: the MySQL queue's dequeue, another provider's queue, or a throw. */
  datatype FetchOutcome =
    | FromMySqlQueue(result: JobQueue.DequeueResult)
    | OtherProvider(provider: Provider)
    | Rejected(error: Error)

  // ---------------------------------------------------------------------
  // CreateExpiredJob.
  // ---------------------------------------------------------------------

  /** A job as `InvocationData.Serialize` renders it: the two columns it fills. */
  datatype JobData = JobData(invocationData: string, arguments: string)

  const ParameterInsertPrefix := "insert into JobParameter (JobId, Name, Value) values "

  /** The `i`-th value tuple of the parameter insert. */
  function ParameterTuple(i: nat): string
  {
    " (@jobId" + Decimal(i) + ", @name" + Decimal(i) + ", @value" + Decimal(i) + ") "
  }

  function ParameterTuples(n: nat): (r: seq<string>)
    ensures |r| == n
  {
    seq(n, i requires 0 <= i < n => ParameterTuple(i))
  }

  const BindingPrefixes: seq<string> := ["@jobId", "@name", "@value"]

  /** The name of binding `k` of the parameter insert: tuple `k / 3`, column `k % 3`. */
  function BindingName(k: nat): string
  {
    BindingPrefixes[k % 3] + Decimal(k / 3)
  }

  /** Every binding of the parameter insert has its own name. */
  lemma BindingNamesDistinct(a: nat, b: nat)
    requires a != b
    ensures BindingName(a) != BindingName(b)
  {
    var pa, pb := BindingPrefixes[a % 3], BindingPrefixes[b % 3];
    if a % 3 != b % 3 {
      assert BindingName(a)[1] == pa[1] && BindingName(b)[1] == pb[1];
    } else {
      assert a / 3 != b / 3;
      DecimalInjective(a / 3, b / 3);
      assert BindingName(a)[|pa|..] == Decimal(a / 3);
      assert BindingName(b)[|pb|..] == Decimal(b / 3);
    }
  }

  /** The value bound to binding `k`: the job id, then the name and value of pair `k / 3`. */
  function BindingValue(jobId: string, params: seq<(string, string)>, k: nat): string
    requires k < 3 * |params|
  {
    if k % 3 == 0 then jobId else if k % 3 == 1 then params[k / 3].0 else params[k / 3].1
  }

  /** The three bindings of tuple `i`. */
  function TupleBindings(jobId: string, i: nat, param: (string, string)): seq<(string, string)>
  {
    [("@jobId" + Decimal(i), jobId), ("@name" + Decimal(i), param.0), ("@value" + Decimal(i), param.1)]
  }

  /** The bindings the loop adds, three per parameter, in order. */
  function Bindings(jobId: string, params: seq<(string, string)>): seq<(string, string)>
  {
    if params == [] then []
    else Bindings(jobId, params[..|params| - 1]) + TupleBindings(jobId, |params| - 1, params[|params| - 1])
  }

  /** Binding `k` is named for column `k % 3` of tuple `k / 3` and carries that column's value. */
  lemma {:induction false} BindingsAt(jobId: string, params: seq<(string, string)>)
    ensures |Bindings(jobId, params)| == 3 * |params|
    ensures forall k :: 0 <= k < 3 * |params| ==>
      Bindings(jobId, params)[k] == (BindingName(k), BindingValue(jobId, params, k))
  {
    if params != [] {
      var i := |params| - 1;
      var prefix := params[..i];
      BindingsAt(jobId, prefix);
      var b := Bindings(jobId, params);
      forall k | 0 <= k < 3 * |params|
        ensures b[k] == (BindingName(k), BindingValue(jobId, params, k))
      {
        if k < 3 * i {
          assert k / 3 < i;
          assert BindingValue(jobId, prefix, k) == BindingValue(jobId, params, k);
        } else {
          assert k / 3 == i;
        }
      }
    }
  }

  /** The statement text for `n` parameters. */
  function ParameterInsertSql(n: nat): string
  {
    ParameterInsertPrefix + Join(",", ParameterTuples(n))
  }

  /** One more tuple: after the first, a comma and the tuple are appended. */
  lemma TuplesStep(i: nat)
    ensures Join(",", ParameterTuples(i + 1))
         == if i == 0 then ParameterTuple(0) else Join(",", ParameterTuples(i)) + "," + ParameterTuple(i)
  {
    assert ParameterTuples(i + 1)[..i] == ParameterTuples(i);
  }

  /**
   * The `StringBuilder` loop of `CreateExpiredJob`: the statement is the
   * prefix followed by one tuple per parameter, separated by commas, and
   * every tuple's three placeholders are bound, in order.
   */
  method ParameterInsertCommand(jobId: string, params: seq<(string, string)>)
    returns (sql: string, bindings: seq<(string, string)>)
    ensures sql == ParameterInsertSql(|params|)
    ensures |bindings| == 3 * |params|
    ensures forall k :: 0 <= k < |bindings| ==> bindings[k] == (BindingName(k), BindingValue(jobId, params, k))
  {
    sql := ParameterInsertPrefix;
    bindings := [];
    var parameterIndex := 0;
    while parameterIndex < |params|
      invariant 0 <= parameterIndex <= |params|
      invariant sql == ParameterInsertSql(parameterIndex)
      invariant bindings == Bindings(jobId, params[..parameterIndex])
    {
      var i := parameterIndex;
      TuplesStep(i);
      assert ParameterInsertSql(i + 1) == if i == 0 then sql + ParameterTuple(i) else sql + "," + ParameterTuple(i);
      assert params[..i + 1][..i] == params[..i];
      if i > 0 {
        sql := sql + ",";
      }
      sql := sql + ParameterTuple(i);
      bindings := bindings + TupleBindings(jobId, i, params[i]);
      parameterIndex := parameterIndex + 1;
    }
    assert params[..parameterIndex] == params;
    BindingsAt(jobId, params);
  }

  function ParameterRows(jobId: int, params: seq<(string, string)>): (r: seq<ParameterRow>)
    ensures |r| == |params|
  {
    seq(|params|, i requires 0 <= i < |params| => ParameterRow(jobId, params[i].0, params[i].1))
  }

  /** The two statements of `CreateExpiredJob`: the Job row with its expiry, then its parameters. */
  function CreateJob(t: Tables, job: JobData, params: seq<(string, string)>, createdAt: int, expireIn: int): Tables
  {
    var id := t.nextJobId;
    t.(jobs := t.jobs + [JobRow(id, job.invocationData, job.arguments, createdAt, Some(createdAt + expireIn), None, None)],
       jobParameters := t.jobParameters + ParameterRows(id, params),
       nextJobId := id + 1)
  }

  /** The Job table's ids are below the next generated id, and so are the parameters' job ids. */
  predicate JobIdsBelow(t: Tables) {
    (forall i :: 0 <= i < |t.jobs| ==> t.jobs[i].id < t.nextJobId) &&
    (forall i :: 0 <= i < |t.jobParameters| ==> t.jobParameters[i].jobId < t.nextJobId)
  }

  // ---------------------------------------------------------------------
  // Job parameters: `insert ... on duplicate key update Value = @value`,
  // read back by a loop that keeps the last row it reads.
  // ---------------------------------------------------------------------

  predicate HasParameter(rows: seq<ParameterRow>, jobId: int, name: string) {
    exists i :: 0 <= i < |rows| && rows[i].jobId == jobId && rows[i].name == name
  }

  function OverwriteParameter(rows: seq<ParameterRow>, jobId: int, name: string, value: string): seq<ParameterRow>
  {
    seq(|rows|, i requires 0 <= i < |rows| =>
      if rows[i].jobId == jobId && rows[i].name == name then rows[i].(value := value) else rows[i])
  }

  function UpsertParameter(rows: seq<ParameterRow>, jobId: int, name: string, value: string): seq<ParameterRow>
  {
    if HasParameter(rows, jobId, name) then OverwriteParameter(rows, jobId, name, value)
    else rows + [ParameterRow(jobId, name, value)]
  }

  /** What the reader loop of `GetJobParameter` ends with: the value of the last matching row. */
  function ParameterValue(rows: seq<ParameterRow>, jobId: int, name: string): Option<string>
  {
    if rows == [] then None
    else if rows[|rows| - 1].jobId == jobId && rows[|rows| - 1].name == name then Some(rows[|rows| - 1].value)
    else ParameterValue(rows[..|rows| - 1], jobId, name)
  }

  /** A parameter is missing (null) exactly when no row has that job id and name. */
  lemma {:induction false} ParameterValueMissing(rows: seq<ParameterRow>, jobId: int, name: string)
    ensures ParameterValue(rows, jobId, name).None? <==> !HasParameter(rows, jobId, name)
  {
    if rows != [] {
      var n := |rows| - 1;
      ParameterValueMissing(rows[..n], jobId, name);
      if HasParameter(rows[..n], jobId, name) {
        var i :| 0 <= i < n && rows[..n][i].jobId == jobId && rows[..n][i].name == name;
        assert rows[i] == rows[..n][i];
      }
      if HasParameter(rows, jobId, name) && !(rows[n].jobId == jobId && rows[n].name == name) {
        var i :| 0 <= i < |rows| && rows[i].jobId == jobId && rows[i].name == name;
        assert rows[..n][i] == rows[i];
      }
    }
  }

  lemma {:induction false} OverwriteParameterValue(rows: seq<ParameterRow>, jobId: int, name: string, value: string,
                                                   j: int, m: string)
    ensures ParameterValue(OverwriteParameter(rows, jobId, name, value), j, m)
         == if j == jobId && m == name then (if ParameterValue(rows, j, m).Some? then Some(value) else None)
            else ParameterValue(rows, j, m)
  {
    if rows != [] {
      var n := |rows| - 1;
      assert OverwriteParameter(rows, jobId, name, value)[..n] == OverwriteParameter(rows[..n], jobId, name, value);
      OverwriteParameterValue(rows[..n], jobId, name, value, j, m);
    }
  }

  /** After `SetJobParameter(id, name, v)`, `GetJobParameter(id, name)` is `v`; every other parameter reads as before. */
  lemma SetThenGetParameter(rows: seq<ParameterRow>, jobId: int, name: string, value: string, j: int, m: string)
    ensures ParameterValue(UpsertParameter(rows, jobId, name, value), j, m)
         == if j == jobId && m == name then Some(value) else ParameterValue(rows, j, m)
  {
    if HasParameter(rows, jobId, name) {
      OverwriteParameterValue(rows, jobId, name, value, j, m);
      ParameterValueMissing(rows, jobId, name);
    } else {
      var r := rows + [ParameterRow(jobId, name, value)];
      assert r[..|r| - 1] == rows;
    }
  }

  /**
   * The parameters `CreateExpiredJob` stores read back under the returned
   * job: each name gives the value of its last pair, a name not among the
   * pairs gives none.
   */
  lemma {:induction false} CreatedJobParameters(t: Tables, job: JobData, params: seq<(string, string)>,
                                                createdAt: int, expireIn: int, name: string)
    requires JobIdsBelow(t)
    ensures ParameterValue(CreateJob(t, job, params, createdAt, expireIn).jobParameters, t.nextJobId, name)
         == WriteOnly.LastValue(params, name)
  {
    var rows := t.jobParameters + ParameterRows(t.nextJobId, params);
    if params == [] {
      assert rows == t.jobParameters;
      ParameterValueMissing(t.jobParameters, t.nextJobId, name);
    } else {
      var n := |params| - 1;
      var shorter := CreateJob(t, job, params[..n], createdAt, expireIn);
      assert rows[..|rows| - 1] == shorter.jobParameters;
      CreatedJobParameters(t, job, params[..n], createdAt, expireIn, name);
    }
  }

  // ---------------------------------------------------------------------
  // Hashes: `select Field, Value from Hash where Key = @key` into a
  // Dictionary, whose `Add` throws on a repeated field.
  // ---------------------------------------------------------------------

  /** What the reader loop of `GetAllEntriesFromHash` builds from these rows. */
  function FieldMap(rows: seq<HashRow>, key: string): Result<map<string, string>>
  {
    if rows == [] then Ok(map[])
    else
      var last := rows[|rows| - 1];
      var m := FieldMap(rows[..|rows| - 1], key);
      if m.Err? || last.key != key then m
      else if last.field in m.value then Err(Argument(None))
      else Ok(m.value[last.field := last.value])
  }

  lemma {:induction false} HashLookupSnoc(rows: seq<HashRow>, x: HashRow, k: string, f: string)
    ensures HashLookup(rows + [x], k, f)
         == if HashLookup(rows, k, f).Some? then HashLookup(rows, k, f)
            else if x.key == k && x.field == f then Some(x.value) else None
  {
    if rows == [] {
      assert rows + [x] == [x];
    } else {
      assert (rows + [x])[1..] == rows[1..] + [x];
      HashLookupSnoc(rows[1..], x, k, f);
    }
  }

  /**
   * On a Hash table with its unique key, the reader never throws and the
   * dictionary it builds maps each field of the hash to its stored value.
   */
  lemma {:induction false} FieldMapMatchesLookup(rows: seq<HashRow>, key: string, f: string)
    requires UniqueHashFields(rows)
    ensures FieldMap(rows, key).Ok?
    ensures f in FieldMap(rows, key).value <==> HashLookup(rows, key, f).Some?
    ensures f in FieldMap(rows, key).value ==> FieldMap(rows, key).value[f] == HashLookup(rows, key, f).value
  {
    if rows != [] {
      var n := |rows| - 1;
      var last := rows[n];
      assert rows == rows[..n] + [last];
      FieldMapMatchesLookup(rows[..n], key, f);
      FieldMapMatchesLookup(rows[..n], key, last.field);
      HashLookupSnoc(rows[..n], last, key, f);
      if last.key == key {
        HashLookupIn(rows[..n], key, last.field);
        assert forall i :: 0 <= i < n ==> rows[..n][i] == rows[i];
      }
    }
  }

  /** `SetRangeInHash` keeps the Hash table's unique key. */
  lemma {:induction false} HashRangeKeepsUnique(t: Tables, key: string, pairs: seq<(string, string)>)
    requires UniqueHashFields(t.hashes)
    ensures UniqueHashFields(WriteOnly.ExecuteAll(t, WriteOnly.HashCommands(key, pairs)).hashes)
  {
    if pairs != [] {
      var n := |pairs| - 1;
      assert WriteOnly.HashCommands(key, pairs)[..n] == WriteOnly.HashCommands(key, pairs[..n]);
      HashRangeKeepsUnique(t, key, pairs[..n]);
      var before := WriteOnly.ExecuteAll(t, WriteOnly.HashCommands(key, pairs[..n]));
      UpsertHashUnique(before.hashes, key, pairs[n].0, pairs[n].1);
    }
  }

  /** The hash `key` has no field in these rows. */
  ghost predicate NoFields(rows: seq<HashRow>, key: string) {
    forall g :: HashLookup(rows, key, g).None?
  }

  /**
   * `GetAllEntriesFromHash` after `SetRangeInHash`: the reader never throws;
   * a field is in the result exactly when some pair names it or the hash
   * already had it, with the value of its last pair, else its old value; and
   * the result is empty (read as null) exactly when no pair was given and the
   * hash had no field.
   */
  lemma SetRangeThenGetAll(t: Tables, key: string, pairs: seq<(string, string)>, f: string)
    requires UniqueHashFields(t.hashes)
    ensures var m := FieldMap(WriteOnly.ExecuteAll(t, WriteOnly.HashCommands(key, pairs)).hashes, key);
      m.Ok? &&
      (f in m.value <==> WriteOnly.LastValue(pairs, f).Some? || HashLookup(t.hashes, key, f).Some?) &&
      (f in m.value ==>
         m.value[f] == if WriteOnly.LastValue(pairs, f).Some? then WriteOnly.LastValue(pairs, f).value
                       else HashLookup(t.hashes, key, f).value) &&
      (m.value == map[] <==> pairs == [] && NoFields(t.hashes, key))
  {
    var h := WriteOnly.ExecuteAll(t, WriteOnly.HashCommands(key, pairs)).hashes;
    HashRangeKeepsUnique(t, key, pairs);
    FieldMapMatchesLookup(h, key, f);
    WriteOnly.HashRangeLastPairWins(t, key, pairs, key, f);
    var m := FieldMap(h, key);
    if pairs != [] {
      var g := pairs[|pairs| - 1].0;
      FieldMapMatchesLookup(h, key, g);
      WriteOnly.HashRangeLastPairWins(t, key, pairs, key, g);
      assert g in m.value && m.value != map[];
    } else {
      assert WriteOnly.HashCommands(key, pairs) == [];
      assert h == t.hashes;
      if NoFields(t.hashes, key) {
        forall g ensures g !in m.value {
          FieldMapMatchesLookup(h, key, g);
        }
        assert m.value.Keys == {};
        assert m.value == map[];
      }
      if m.value == map[] {
        forall g ensures HashLookup(t.hashes, key, g).None? {
          FieldMapMatchesLookup(h, key, g);
          assert g !in m.value;
        }
      }
    }
  }

  // ---------------------------------------------------------------------
  // `select Value from Set where Key = @key and Score between @from and @to
  // order by Score limit 1`.
  // ---------------------------------------------------------------------

  predicate InScoreRange(row: SetRow, key: string, fromScore: int, toScore: int) {
    row.key == key && fromScore <= row.score <= toScore
  }

  /** The row the query returns: lowest score in range, the earliest such row on a tie. */
  function LowestScoreIndex(rows: seq<SetRow>, key: string, fromScore: int, toScore: int): (r: Option<nat>)
    ensures r.Some? ==>
      r.value < |rows| && InScoreRange(rows[r.value], key, fromScore, toScore) &&
      forall j :: 0 <= j < |rows| && InScoreRange(rows[j], key, fromScore, toScore) ==> rows[r.value].score <= rows[j].score
    ensures r.None? <==> forall j :: 0 <= j < |rows| ==> !InScoreRange(rows[j], key, fromScore, toScore)
  {
    if rows == [] then None
    else
      var rest := LowestScoreIndex(rows[1..], key, fromScore, toScore);
      assert forall j :: 1 <= j < |rows| ==> rows[j] == rows[1..][j - 1];
      if !InScoreRange(rows[0], key, fromScore, toScore) then
        (if rest.Some? then Some(rest.value + 1) else None)
      else if rest.Some? && rows[rest.value + 1].score < rows[0].score then Some(rest.value + 1)
      else Some(0)
  }

  function LowestScoreValue(rows: seq<SetRow>, key: string, fromScore: int, toScore: int): Option<string>
  {
    match LowestScoreIndex(rows, key, fromScore, toScore)
    case Some(i) => Some(rows[i].value)
    case None => None
  }

  // ---------------------------------------------------------------------
  // The connection object.
  // ---------------------------------------------------------------------

  class MySqlStorageConnection {
    const storage: MySqlStorage

    constructor (storage: MySqlStorage)
      ensures this.storage == storage
    {
      this.storage := storage;
    }

    /**
     * `FetchNextJob`: routes the queues to their single provider; the MySQL
     * provider's queue is `MySqlJobQueue`, whose `Dequeue` takes over.
     */
    method FetchNextJob(queues: Option<seq<string>>, token: CancellationToken, clock: nat -> int,
                        faults: set<nat>, maxPolls: nat) returns (r: FetchOutcome)
      requires storage.Valid()
      modifies storage`connections, storage`nextConnection, storage.db
      ensures storage.Valid()
      ensures var route := RouteFetch(storage.queueProviders.byQueue, storage.queueProviders.defaultProvider, queues);
        (route.Err? ==> r == Rejected(route.error)) &&
        (route.Ok? && route.value != MySqlQueueProvider ==> r == OtherProvider(route.value)) &&
        (route.Ok? && route.value == MySqlQueueProvider ==> r.FromMySqlQueue?)
      ensures !r.FromMySqlQueue? ==> storage.db.tables == old(storage.db.tables) && storage.connections == old(storage.connections)
      ensures r.FromMySqlQueue? ==>
        queues.Some? && queues.value != [] &&
        var rows := old(storage.db.tables.jobQueue);
        var end := JobQueue.Polls(rows, queues.value, token, clock, storage.options.invisibilityTimeout, faults, 0, maxPolls);
        (end.CancelledAt? <==> r.result == JobQueue.Failed(OperationCanceled)) &&
        (end.FaultAt? <==> r.result == JobQueue.Failed(StoreError)) &&
        (end.Exhausted? <==> r.result == JobQueue.StillPolling) &&
        (end.ClaimedAt? <==> r.result.Claimed?) &&
        (!r.result.Claimed? ==> storage.db.tables == old(storage.db.tables) && storage.connections == old(storage.connections)) &&
        (r.result.Claimed? ==>
          var row := rows[end.index];
          r.result.job.jobId == IntString(row.jobId) && r.result.job.queue == row.queue &&
          storage.db.tables == old(storage.db.tables).(jobQueue := if row.id > 0 then JobQueue.DeleteById(rows, row.id) else rows) &&
          r.result.job.transaction.snapshot == rows && r.result.job.transaction.status == FetchedJobs.Pending &&
          storage.connections == old(storage.connections) + {r.result.job.connection})
      ensures r.FromMySqlQueue? && r.result.Claimed? ==> queues.Some? && r.result.job.queue in queues.value
    {
      var route := RouteFetch(storage.queueProviders.byQueue, storage.queueProviders.defaultProvider, queues);
      if route.Err? {
        return Rejected(route.error);
      }
      if route.value != MySqlQueueProvider {
        return OtherProvider(route.value);
      }
      var queue := new JobQueue.MySqlJobQueue(storage, storage.options);
      var d := queue.Dequeue(queues, token, clock, faults, maxPolls);
      r := FromMySqlQueue(d);
    }

    /**
     * `CreateExpiredJob`: a null job or null parameters throw, in that order;
     * otherwise the Job row (expiring at `createdAt + expireIn`) and, when
     * there are parameters, one JobParameter row per pair in one statement.
     * The result is the generated id as a decimal string.
     */
    method CreateExpiredJob(job: Option<JobData>, parameters: Option<seq<(string, string)>>,
                            createdAt: int, expireIn: int) returns (r: Result<string>)
      requires storage.Valid()
      modifies storage`connections, storage`nextConnection, storage.db
      ensures storage.Valid() && storage.connections == old(storage.connections)
      ensures job.None? ==> r == Err(ArgumentNull("job"))
      ensures job.Some? && parameters.None? ==> r == Err(ArgumentNull("parameters"))
      ensures r.Err? ==> storage.db.tables == old(storage.db.tables)
      ensures job.Some? && parameters.Some? ==>
        r == Ok(IntString(old(storage.db.tables.nextJobId))) &&
        storage.db.tables == CreateJob(old(storage.db.tables), job.value, parameters.value, createdAt, expireIn)
    {
      if job.None? { return Err(ArgumentNull("job")); }
      if parameters.None? { return Err(ArgumentNull("parameters")); }
      var params := parameters.value;
      var c := storage.CreateAndOpenConnection();
      var t := storage.db.tables;
      var id := t.nextJobId;
      var row := JobRow(id, job.value.invocationData, job.value.arguments, createdAt, Some(createdAt + expireIn), None, None);
      storage.db.tables := t.(jobs := t.jobs + [row], nextJobId := id + 1);
      var jobId := IntString(id);
      if |params| > 0 {
        var sql, bindings := ParameterInsertCommand(jobId, params);
        storage.db.tables := storage.db.tables.(jobParameters := t.jobParameters + ParameterRows(id, params));
      } else {
        assert t.jobParameters + ParameterRows(id, params) == t.jobParameters;
      }
      storage.ReleaseConnection(c);
      r := Ok(jobId);
    }

    /** `SetJobParameter`: null id or name throw, in that order; otherwise the upsert. */
    method SetJobParameter(id: Option<int>, name: Option<string>, value: string) returns (r: Outcome)
      requires storage.Valid()
      modifies storage`connections, storage`nextConnection, storage.db
      ensures storage.Valid() && storage.connections == old(storage.connections)
      ensures id.None? ==> r == Fail(ArgumentNull("id")) && storage.db.tables == old(storage.db.tables)
      ensures id.Some? && name.None? ==> r == Fail(ArgumentNull("name")) && storage.db.tables == old(storage.db.tables)
      ensures id.Some? && name.Some? ==>
        r == Pass &&
        storage.db.tables == old(storage.db.tables).(jobParameters :=
          UpsertParameter(old(storage.db.tables.jobParameters), id.value, name.value, value))
    {
      if id.None? { return Fail(ArgumentNull("id")); }
      if name.None? { return Fail(ArgumentNull("name")); }
      var j, n := id.value, name.value;
      var u := storage.UseConnection((t: Tables) =>
        Ok((t.(jobParameters := UpsertParameter(t.jobParameters, j, n, value)), ())));
      r := Pass;
    }

    /** `GetJobParameter`: null id or name throw, in that order; otherwise the reader loop's last value, or null. */
    method GetJobParameter(id: Option<int>, name: Option<string>) returns (r: Result<Option<string>>)
      requires storage.Valid()
      modifies storage`connections, storage`nextConnection
      ensures storage.Valid() && storage.connections == old(storage.connections)
      ensures id.None? ==> r == Err(ArgumentNull("id"))
      ensures id.Some? && name.None? ==> r == Err(ArgumentNull("name"))
      ensures id.Some? && name.Some? ==> r == Ok(ParameterValue(storage.db.tables.jobParameters, id.value, name.value))
    {
      if id.None? { return Err(ArgumentNull("id")); }
      if name.None? { return Err(ArgumentNull("name")); }
      var c := storage.CreateAndOpenConnection();
      var rows := storage.db.tables.jobParameters;
      var result: Option<string> := None;
      var i := 0;
      while i < |rows|
        invariant 0 <= i <= |rows|
        invariant result == ParameterValue(rows[..i], id.value, name.value)
      {
        assert rows[..i + 1][..i] == rows[..i];
        if rows[i].jobId == id.value && rows[i].name == name.value {
          result := Some(rows[i].value);
        }
        i := i + 1;
      }
      assert rows[..i] == rows;
      storage.ReleaseConnection(c);
      r := Ok(result);
    }

    /**
     * `RemoveTimedOutServers`: a negative timeout throws
     * `ArgumentException("timeOut")`; otherwise exactly the servers whose last
     * heartbeat is before `now - timeOut` are deleted, and their number is
     * the result.
     */
    method RemoveTimedOutServers(timeOut: int, now: int) returns (r: Result<nat>)
      requires storage.Valid()
      modifies storage`connections, storage`nextConnection, storage.db
      ensures storage.Valid() && storage.connections == old(storage.connections)
      ensures timeOut < 0 ==> r == Err(Argument(Some("timeOut"))) && storage.db.tables == old(storage.db.tables)
      ensures timeOut >= 0 ==>
        var before := old(storage.db.tables.servers);
        var after := storage.db.tables.servers;
        storage.db.tables == old(storage.db.tables).(servers := after) &&
        r == Ok(|before| - |after|) &&
        forall s :: s in after <==> s in before && s.lastHeartbeat >= now - timeOut
    {
      if timeOut < 0 {
        return Err(Argument(Some("timeOut")));
      }
      var timeOutAt := now - timeOut;
      r := storage.UseConnection((t: Tables) =>
        var doomed := (s: ServerRow) => s.lastHeartbeat < timeOutAt;
        Ok((t.(servers := DeleteWhere(t.servers, doomed)), CountWhere(t.servers, doomed))));
    }

    /** `SetRangeInHash`: null key or pairs throw, in that order; otherwise one upsert per pair, in order. */
    method SetRangeInHash(key: Option<string>, pairs: Option<seq<(string, string)>>) returns (r: Outcome)
      requires storage.Valid()
      modifies storage`connections, storage`nextConnection, storage.db
      ensures storage.Valid() && storage.connections == old(storage.connections)
      ensures key.None? ==> r == Fail(ArgumentNull("key")) && storage.db.tables == old(storage.db.tables)
      ensures key.Some? && pairs.None? ==> r == Fail(ArgumentNull("keyValuePairs")) && storage.db.tables == old(storage.db.tables)
      ensures key.Some? && pairs.Some? ==>
        r == Pass &&
        storage.db.tables == WriteOnly.ExecuteAll(old(storage.db.tables), WriteOnly.HashCommands(key.value, pairs.value))
    {
      if key.None? { return Fail(ArgumentNull("key")); }
      if pairs.None? { return Fail(ArgumentNull("keyValuePairs")); }
      var k, ps := key.value, pairs.value;
      var u := storage.UseConnection((t: Tables) => Ok((WriteOnly.ExecuteAll(t, WriteOnly.HashCommands(k, ps)), ())));
      r := Pass;
    }

    /**
     * `GetAllEntriesFromHash`: a null key throws; a repeated field throws
     * from `Dictionary.Add`; a hash without fields gives null.
     */
    method GetAllEntriesFromHash(key: Option<string>) returns (r: Result<Option<map<string, string>>>)
      requires storage.Valid()
      modifies storage`connections, storage`nextConnection
      ensures storage.Valid() && storage.connections == old(storage.connections)
      ensures key.None? ==> r == Err(ArgumentNull("key"))
      ensures key.Some? ==>
        var m := FieldMap(storage.db.tables.hashes, key.value);
        (m.Err? ==> r == Err(m.error)) &&
        (m.Ok? ==> r == Ok(if m.value == map[] then None else Some(m.value)))
    {
      if key.None? { return Err(ArgumentNull("key")); }
      var c := storage.CreateAndOpenConnection();
      var rows := storage.db.tables.hashes;
      var result: map<string, string> := map[];
      var i := 0;
      while i < |rows|
        invariant 0 <= i <= |rows|
        invariant FieldMap(rows[..i], key.value) == Ok(result)
      {
        assert rows[..i + 1][..i] == rows[..i];
        if rows[i].key == key.value {
          if rows[i].field in result {
            storage.ReleaseConnection(c);
            FieldMapErrSticks(rows, key.value, i + 1);
            return Err(Argument(None));
          }
          result := result[rows[i].field := rows[i].value];
        }
        i := i + 1;
      }
      assert rows[..i] == rows;
      storage.ReleaseConnection(c);
      r := Ok(if result == map[] then None else Some(result));
    }

    /** `GetFirstByLowestScoreFromSet`: the value with the lowest score in `[fromScore, toScore]`, or null. */
    method GetFirstByLowestScoreFromSet(key: string, fromScore: int, toScore: int) returns (r: Result<Option<string>>)
      requires storage.Valid()
      modifies storage`connections, storage`nextConnection, storage.db
      ensures storage.Valid() && storage.connections == old(storage.connections)
      ensures storage.db.tables == old(storage.db.tables)
      ensures r == Ok(LowestScoreValue(old(storage.db.tables.sets), key, fromScore, toScore))
    {
      r := storage.UseConnection((t: Tables) => Ok((t, LowestScoreValue(t.sets, key, fromScore, toScore))));
    }
  }

  /** Once the reader has thrown on a prefix, the whole read throws the same way. */
  lemma {:induction false} FieldMapErrSticks(rows: seq<HashRow>, key: string, n: nat)
    requires n <= |rows| && FieldMap(rows[..n], key).Err?
    ensures FieldMap(rows, key) == FieldMap(rows[..n], key)
    decreases |rows| - n
  {
    if n < |rows| {
      assert rows[..n + 1][..n] == rows[..n];
      FieldMapErrSticks(rows, key, n + 1);
    } else {
      assert rows[..n] == rows;
    }
  }
}
