/**
 * Counter compaction. One pass takes the first `NumberOfRecordsInSinglePass`
 * `Counter` rows, groups them by key (`SUM(Value)`, `MAX(ExpireAt)`), upserts
 * the groups into `AggregatedCounter` (whose `Key` is unique: an existing row
 * gets `Value + SUM` and `GREATEST(ExpireAt, MAX)`), and deletes those rows.
 * The model takes the rows selected and the rows deleted to be the same
 * first rows in storage order.
 */
module Aggregator {
  import opened Wrappers
  import opened Tables
  import opened StorageOptions
  import opened Storage

  const NumberOfRecordsInSinglePass: nat := 1000

  /** The SQL aggregate `MAX` over two values: NULL is ignored. */
  function MaxIgnoringNull(a: Option<int>, b: Option<int>): Option<int>
  {
    if a.None? then b
    else if b.None? then a
    else Some(if a.value < b.value then b.value else a.value)
  }

  /** MySQL's `GREATEST`: NULL as soon as either argument is NULL. */
  function Greatest(a: Option<int>, b: Option<int>): (r: Option<int>)
    ensures r.None? <==> a.None? || b.None?
    ensures r.Some? ==> r.value >= a.value && r.value >= b.value && (r.value == a.value || r.value == b.value)
  {
    if a.None? || b.None? then None else Some(if a.value < b.value then b.value else a.value)
  }

  /** `MAX(ExpireAt)` of the group of `key`: the largest non-NULL expiry, NULL when all are NULL. */
  function GroupExpire(batch: seq<CounterRow>, key: string): (e: Option<int>)
    ensures e.None? <==> forall i :: 0 <= i < |batch| && batch[i].key == key ==> batch[i].expireAt.None?
    ensures e.Some? ==>
      (exists i :: 0 <= i < |batch| && batch[i].key == key && batch[i].expireAt == e) &&
      forall i :: 0 <= i < |batch| && batch[i].key == key && batch[i].expireAt.Some? ==> batch[i].expireAt.value <= e.value
  {
    if batch == [] then None
    else
      var rest := GroupExpire(batch[1..], key);
      assert forall i :: 1 <= i < |batch| ==> batch[i] == batch[1..][i - 1];
      MaxIgnoringNull(if batch[0].key == key then batch[0].expireAt else None, rest)
  }

  predicate Distinct(keys: seq<string>) {
    forall i, j :: 0 <= i < j < |keys| ==> keys[i] != keys[j]
  }

  /** The keys of `GROUP BY Key`: each key of the batch once, in order of first occurrence. */
  function BatchKeys(batch: seq<CounterRow>): (keys: seq<string>)
    ensures Distinct(keys)
    ensures forall k :: k in keys <==> exists i :: 0 <= i < |batch| && batch[i].key == k
  {
    if batch == [] then []
    else
      var init := batch[..|batch| - 1];
      var keys := BatchKeys(init);
      assert forall i :: 0 <= i < |init| ==> init[i] == batch[i];
      if batch[|batch| - 1].key in keys then keys else keys + [batch[|batch| - 1].key]
  }

  /** A key with no row in the batch contributes nothing to its sum. */
  lemma {:induction false} CounterSumMissing(batch: seq<CounterRow>, key: string)
    requires forall i :: 0 <= i < |batch| ==> batch[i].key != key
    ensures CounterSum(batch, key) == 0
  {
    if batch != [] {
      assert forall i :: 0 <= i < |batch[1..]| ==> batch[1..][i] == batch[i + 1];
      CounterSumMissing(batch[1..], key);
    }
  }

  /** The first `AggregatedCounter` row of `key`. */
  function AggLookup(rows: seq<AggregatedRow>, key: string): Option<AggregatedRow>
  {
    if rows == [] then None
    else if rows[0].key == key then Some(rows[0])
    else AggLookup(rows[1..], key)
  }

  predicate UniqueKeys(rows: seq<AggregatedRow>) {
    forall i, j :: 0 <= i < j < |rows| ==> rows[i].key != rows[j].key
  }

  /** The row `key` has after one group is upserted onto the row it had. */
  function Upserted(old_: Option<AggregatedRow>, key: string, value: int, expireAt: Option<int>): AggregatedRow
  {
    match old_
    case None => AggregatedRow(key, value, expireAt)
    case Some(row) => row.(value := row.value + value, expireAt := Greatest(row.expireAt, expireAt))
  }

  /** `insert ... on duplicate key update` of one group. */
  function Upsert(rows: seq<AggregatedRow>, key: string, value: int, expireAt: Option<int>): seq<AggregatedRow>
  {
    if rows == [] then [AggregatedRow(key, value, expireAt)]
    else if rows[0].key == key then [Upserted(Some(rows[0]), key, value, expireAt)] + rows[1..]
    else [rows[0]] + Upsert(rows[1..], key, value, expireAt)
  }

  lemma {:induction false} UpsertSum(rows: seq<AggregatedRow>, key: string, value: int, expireAt: Option<int>, k: string)
    ensures AggregatedSum(Upsert(rows, key, value, expireAt), k) == AggregatedSum(rows, k) + (if k == key then value else 0)
  {
    if rows == [] {
      assert Upsert(rows, key, value, expireAt)[1..] == [];
    } else if rows[0].key == key {
      assert Upsert(rows, key, value, expireAt)[1..] == rows[1..];
    } else {
      assert Upsert(rows, key, value, expireAt)[1..] == Upsert(rows[1..], key, value, expireAt);
      UpsertSum(rows[1..], key, value, expireAt, k);
    }
  }

  lemma {:induction false} UpsertLookup(rows: seq<AggregatedRow>, key: string, value: int, expireAt: Option<int>, k: string)
    ensures AggLookup(Upsert(rows, key, value, expireAt), k)
         == if k == key then Some(Upserted(AggLookup(rows, key), key, value, expireAt)) else AggLookup(rows, k)
  {
    if rows != [] && rows[0].key != key {
      assert Upsert(rows, key, value, expireAt)[1..] == Upsert(rows[1..], key, value, expireAt);
      UpsertLookup(rows[1..], key, value, expireAt, k);
    }
  }

  /** Every key of an upserted table was a key before, or is the upserted key. */
  lemma {:induction false} UpsertKeyFrom(rows: seq<AggregatedRow>, key: string, value: int, expireAt: Option<int>, j: nat)
    requires j < |Upsert(rows, key, value, expireAt)|
    ensures var k := Upsert(rows, key, value, expireAt)[j].key;
      k == key || exists i :: 0 <= i < |rows| && rows[i].key == k
  {
    var u := Upsert(rows, key, value, expireAt);
    if rows != [] && j > 0 {
      if rows[0].key == key {
        assert u[j] == rows[j];
      } else {
        assert u[j] == Upsert(rows[1..], key, value, expireAt)[j - 1];
        UpsertKeyFrom(rows[1..], key, value, expireAt, j - 1);
        if u[j].key != key {
          var i :| 0 <= i < |rows[1..]| && rows[1..][i].key == u[j].key;
          assert rows[i + 1] == rows[1..][i];
        }
      }
    }
  }

  /** The upsert keeps `Key` unique. */
  lemma {:induction false} UpsertUnique(rows: seq<AggregatedRow>, key: string, value: int, expireAt: Option<int>)
    requires UniqueKeys(rows)
    ensures UniqueKeys(Upsert(rows, key, value, expireAt))
  {
    var u := Upsert(rows, key, value, expireAt);
    if rows != [] {
      if rows[0].key == key {
        assert forall i :: 0 < i < |u| ==> u[i] == rows[i];
      } else {
        var rest := Upsert(rows[1..], key, value, expireAt);
        assert UniqueKeys(rows[1..]) by {
          forall a, b | 0 <= a < b < |rows[1..]| ensures rows[1..][a].key != rows[1..][b].key {
            assert rows[1..][a] == rows[a + 1] && rows[1..][b] == rows[b + 1];
          }
        }
        UpsertUnique(rows[1..], key, value, expireAt);
        forall j | 0 <= j < |rest| ensures rest[j].key != rows[0].key {
          UpsertKeyFrom(rows[1..], key, value, expireAt, j);
          if rest[j].key != key {
            var i :| 0 <= i < |rows[1..]| && rows[1..][i].key == rest[j].key;
            assert rows[1..][i] == rows[i + 1];
          }
        }
        assert forall i :: 0 < i < |u| ==> u[i] == rest[i - 1];
      }
    }
  }

  /** The upserts of the groups `keys` of `batch`, one after the other. */
  function MergeAll(rows: seq<AggregatedRow>, batch: seq<CounterRow>, keys: seq<string>): seq<AggregatedRow>
    decreases |keys|
  {
    if keys == [] then rows
    else MergeAll(Upsert(rows, keys[0], CounterSum(batch, keys[0]), GroupExpire(batch, keys[0])), batch, keys[1..])
  }

  lemma {:induction false} MergeAllSum(rows: seq<AggregatedRow>, batch: seq<CounterRow>, keys: seq<string>, k: string)
    requires Distinct(keys)
    decreases |keys|
    ensures AggregatedSum(MergeAll(rows, batch, keys), k)
         == AggregatedSum(rows, k) + (if k in keys then CounterSum(batch, k) else 0)
  {
    if keys != [] {
      var next := Upsert(rows, keys[0], CounterSum(batch, keys[0]), GroupExpire(batch, keys[0]));
      UpsertSum(rows, keys[0], CounterSum(batch, keys[0]), GroupExpire(batch, keys[0]), k);
      assert Distinct(keys[1..]) by {
        forall a, b | 0 <= a < b < |keys[1..]| ensures keys[1..][a] != keys[1..][b] {
          assert keys[1..][a] == keys[a + 1] && keys[1..][b] == keys[b + 1];
        }
      }
      MergeAllSum(next, batch, keys[1..], k);
      assert k in keys <==> k == keys[0] || k in keys[1..];
      assert k == keys[0] ==> k !in keys[1..];
    }
  }

  lemma {:induction false} MergeAllLookup(rows: seq<AggregatedRow>, batch: seq<CounterRow>, keys: seq<string>, k: string)
    requires Distinct(keys)
    decreases |keys|
    ensures AggLookup(MergeAll(rows, batch, keys), k)
         == if k in keys then Some(Upserted(AggLookup(rows, k), k, CounterSum(batch, k), GroupExpire(batch, k)))
            else AggLookup(rows, k)
  {
    if keys != [] {
      var next := Upsert(rows, keys[0], CounterSum(batch, keys[0]), GroupExpire(batch, keys[0]));
      UpsertLookup(rows, keys[0], CounterSum(batch, keys[0]), GroupExpire(batch, keys[0]), k);
      assert Distinct(keys[1..]) by {
        forall a, b | 0 <= a < b < |keys[1..]| ensures keys[1..][a] != keys[1..][b] {
          assert keys[1..][a] == keys[a + 1] && keys[1..][b] == keys[b + 1];
        }
      }
      MergeAllLookup(next, batch, keys[1..], k);
      assert k in keys <==> k == keys[0] || k in keys[1..];
      assert k == keys[0] ==> k !in keys[1..];
    }
  }

  lemma {:induction false} MergeAllUnique(rows: seq<AggregatedRow>, batch: seq<CounterRow>, keys: seq<string>)
    requires UniqueKeys(rows)
    decreases |keys|
    ensures UniqueKeys(MergeAll(rows, batch, keys))
  {
    if keys != [] {
      UpsertUnique(rows, keys[0], CounterSum(batch, keys[0]), GroupExpire(batch, keys[0]));
      MergeAllUnique(Upsert(rows, keys[0], CounterSum(batch, keys[0]), GroupExpire(batch, keys[0])), batch, keys[1..]);
    }
  }

  /** The number of rows one pass takes and deletes. */
  function BatchSize(t: Tables): nat {
    if |t.counters| < NumberOfRecordsInSinglePass then |t.counters| else NumberOfRecordsInSinglePass
  }

  /** The aggregation statement: the new tables, and the number of `Counter` rows deleted. */
  function AggregatePass(t: Tables): (r: (Tables, nat))
    ensures r.1 == BatchSize(t) && |r.0.counters| == |t.counters| - r.1
    ensures r.0 == t.(counters := r.0.counters, aggregatedCounters := r.0.aggregatedCounters)
  {
    var batch := t.counters[..BatchSize(t)];
    (t.(counters := t.counters[BatchSize(t)..],
        aggregatedCounters := MergeAll(t.aggregatedCounters, batch, BatchKeys(batch))),
     BatchSize(t))
  }

  /** Conservation: a pass moves counter values between the two tables and changes no key's total. */
  lemma PassConserves(t: Tables, key: string)
    ensures CounterValue(AggregatePass(t).0, key) == CounterValue(t, key)
  {
    var n := BatchSize(t);
    var batch := t.counters[..n];
    assert t.counters == batch + t.counters[n..];
    CounterSumAppend(batch, t.counters[n..], key);
    MergeAllSum(t.aggregatedCounters, batch, BatchKeys(batch), key);
    if key !in BatchKeys(batch) {
      CounterSumMissing(batch, key);
    }
  }

  /**
   * After a pass every key of the batch has exactly one `AggregatedCounter`
   * row: a new key gets the group's sum and `MAX(ExpireAt)`, an existing row
   * gets `old + SUM` and `GREATEST(old, MAX)`; keys not in the batch keep
   * their row as it was.
   */
  lemma PassAggregates(t: Tables, key: string)
    requires UniqueKeys(t.aggregatedCounters)
    ensures var t' := AggregatePass(t).0;
      var batch := t.counters[..BatchSize(t)];
      UniqueKeys(t'.aggregatedCounters) &&
      AggLookup(t'.aggregatedCounters, key)
        == if exists i :: 0 <= i < |batch| && batch[i].key == key
           then Some(Upserted(AggLookup(t.aggregatedCounters, key), key, CounterSum(batch, key), GroupExpire(batch, key)))
           else AggLookup(t.aggregatedCounters, key)
  {
    var batch := t.counters[..BatchSize(t)];
    MergeAllUnique(t.aggregatedCounters, batch, BatchKeys(batch));
    MergeAllLookup(t.aggregatedCounters, batch, BatchKeys(batch), key);
  }

  /**
   * `Execute`: passes repeat while a pass removed a full batch; after each
   * full batch the token is checked (check `i` after pass `i`). The result
   * is the final tables and whether the loop ended or was cancelled.
   */
  function Run(t: Tables, token: CancellationToken, i: nat): (r: (Tables, Outcome))
    decreases |t.counters|
    ensures r.0 == t.(counters := r.0.counters, aggregatedCounters := r.0.aggregatedCounters)
    ensures r.1.Pass? ==> r.0.counters == []
    ensures r.1.Fail? ==> r.1.error == OperationCanceled
  {
    var (next, removed) := AggregatePass(t);
    if removed >= NumberOfRecordsInSinglePass then
      if token.IsCancellationRequested(i) then (next, Fail(OperationCanceled))
      else Run(next, token, i + 1)
    else (next, Pass)
  }

  /** Every run, cancelled or not, keeps each counter's total. */
  lemma {:induction false} RunConserves(t: Tables, token: CancellationToken, i: nat, key: string)
    decreases |t.counters|
    ensures CounterValue(Run(t, token, i).0, key) == CounterValue(t, key)
  {
    var (next, removed) := AggregatePass(t);
    PassConserves(t, key);
    if removed >= NumberOfRecordsInSinglePass && !token.IsCancellationRequested(i) {
      RunConserves(next, token, i + 1, key);
    }
  }

  /** A pre-cancelled token still lets the first pass run. */
  lemma CancelledRunStillAggregates(t: Tables, token: CancellationToken)
    requires token.IsCancellationRequested(0) && t.counters != []
    ensures |Run(t, token, 0).0.counters| < |t.counters|
    ensures token.cancelledFrom == Some(0) && |t.counters| >= NumberOfRecordsInSinglePass ==>
              Run(t, token, 0) == (AggregatePass(t).0, Fail(OperationCanceled))
  {
  }

  class CountersAggregator {
    const storage: MySqlStorage
    const options: MySqlStorageOptions

    constructor (storage: MySqlStorage, options: MySqlStorageOptions)
      ensures this.storage == storage && this.options == options
    {
      this.storage := storage;
      this.options := options;
    }

    /** The constructor with its guard: a missing storage is refused. */
    static method New(storage: Option<MySqlStorage>, options: MySqlStorageOptions) returns (r: Result<CountersAggregator>)
      ensures r.Err? <==> storage.None?
      ensures r.Err? ==> r.error == ArgumentNull("storage")
      ensures r.Ok? ==> fresh(r.value) && r.value.storage == storage.value && r.value.options == options
    {
      if storage.None? {
        return Err(ArgumentNull("storage"));
      }
      var a := new CountersAggregator(storage.value, options);
      return Ok(a);
    }

    /** `Execute(cancellationToken)`: each pass runs through `UseConnection`. */
    method Execute(token: CancellationToken) returns (r: Outcome)
      requires storage.Valid()
      modifies storage`connections, storage`nextConnection, storage.db
      ensures storage.Valid() && storage.connections == old(storage.connections)
      ensures (storage.db.tables, r) == Run(old(storage.db.tables), token, 0)
      ensures forall key :: CounterValue(storage.db.tables, key) == CounterValue(old(storage.db.tables), key)
    {
      ghost var start := storage.db.tables;
      var i: nat := 0;
      while true
        invariant storage.Valid() && storage.connections == old(storage.connections)
        invariant Run(start, token, 0) == Run(storage.db.tables, token, i)
        decreases |storage.db.tables.counters|
      {
        ghost var before := storage.db.tables;
        var removed := storage.UseConnection((t: Tables) => var p := AggregatePass(t); Ok((p.0, p.1)));
        if removed.value < NumberOfRecordsInSinglePass {
          r := Pass;
          break;
        }
        if token.IsCancellationRequested(i) {
          r := Fail(OperationCanceled);
          break;
        }
        i := i + 1;
      }
      forall key | true
        ensures CounterValue(storage.db.tables, key) == CounterValue(start, key)
      {
        RunConserves(start, token, 0, key);
      }
    }
  }
}
