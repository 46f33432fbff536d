/**
 * The record store as in-memory tables. Each table is a sequence of rows in
 * storage order; `None` in a column stands for SQL NULL. Instants and
 * durations are whole seconds. The three `next...Id` counters are the
 * AUTO_INCREMENT values of the tables whose generated ids the code reads.
 */
module Tables {
  import opened Wrappers

  datatype JobRow = JobRow(id: int, invocationData: string, arguments: string, createdAt: int,
                           expireAt: Option<int>, stateId: Option<int>, stateName: Option<string>)
  datatype StateRow = StateRow(id: int, jobId: int, name: string, reason: Option<string>,
                               createdAt: int, data: string)
  datatype ParameterRow = ParameterRow(jobId: int, name: string, value: string)
  datatype QueueRow = QueueRow(id: int, jobId: int, queue: string, fetchedAt: Option<int>)
  datatype CounterRow = CounterRow(key: string, value: int, expireAt: Option<int>)
  datatype AggregatedRow = AggregatedRow(key: string, value: int, expireAt: Option<int>)
  datatype ListRow = ListRow(key: string, value: string, expireAt: Option<int>)
  datatype SetRow = SetRow(key: string, value: string, score: int, expireAt: Option<int>)
  datatype HashRow = HashRow(key: string, field: string, value: string, expireAt: Option<int>)
  datatype ServerRow = ServerRow(id: string, lastHeartbeat: int)

  datatype Tables = Tables(
    jobs: seq<JobRow>,
    states: seq<StateRow>,
    jobParameters: seq<ParameterRow>,
    jobQueue: seq<QueueRow>,
    counters: seq<CounterRow>,
    aggregatedCounters: seq<AggregatedRow>,
    lists: seq<ListRow>,
    sets: seq<SetRow>,
    hashes: seq<HashRow>,
    servers: seq<ServerRow>,
    nextJobId: int,
    nextStateId: int,
    nextQueueId: int)

  /** The MySQL server all connections of a storage talk to. */
  class Database {
    var tables: Tables

    constructor (initial: Tables)
      ensures tables == initial
    {
      tables := initial;
    }
  }

  /** `ExpireAt < @now`: false for NULL. */
  predicate Expired(expireAt: Option<int>, now: int) {
    expireAt.Some? && expireAt.value < now
  }

  // ---------------------------------------------------------------------
  // Counters: the logical value of a counter key is spread over two tables.
  // ---------------------------------------------------------------------

  /** `SUM(Value)` of the Counter rows for `key` (0 when there are none). */
  function CounterSum(rows: seq<CounterRow>, key: string): int
  {
    if rows == [] then 0
    else (if rows[0].key == key then rows[0].value else 0) + CounterSum(rows[1..], key)
  }

  /** The AggregatedCounter value(s) for `key` (0 when there is no row). */
  function AggregatedSum(rows: seq<AggregatedRow>, key: string): int
  {
    if rows == [] then 0
    else (if rows[0].key == key then rows[0].value else 0) + AggregatedSum(rows[1..], key)
  }

  /** The logical value of counter `key`: Counter rows plus the aggregated total. */
  function CounterValue(t: Tables, key: string): int
  {
    CounterSum(t.counters, key) + AggregatedSum(t.aggregatedCounters, key)
  }

  lemma {:induction false} CounterSumAppend(a: seq<CounterRow>, b: seq<CounterRow>, key: string)
    ensures CounterSum(a + b, key) == CounterSum(a, key) + CounterSum(b, key)
  {
    if a == [] {
      assert a + b == b;
    } else {
      assert (a + b)[0] == a[0] && (a + b)[1..] == a[1..] + b;
      CounterSumAppend(a[1..], b, key);
    }
  }

  // ---------------------------------------------------------------------
  // Hash: `insert into Hash (Key, Field, Value) ... on duplicate key update
  // Value = @value`, with a unique key on (Key, Field).
  // ---------------------------------------------------------------------

  predicate UniqueHashFields(rows: seq<HashRow>) {
    forall i, j :: 0 <= i < j < |rows| ==> rows[i].key != rows[j].key || rows[i].field != rows[j].field
  }

  /** The value stored for (`key`, `field`), if any. */
  function HashLookup(rows: seq<HashRow>, key: string, field: string): Option<string>
  {
    if rows == [] then None
    else if rows[0].key == key && rows[0].field == field then Some(rows[0].value)
    else HashLookup(rows[1..], key, field)
  }

  /** The single-row upsert: overwrite the value of an existing field or append a new row. */
  function UpsertHash(rows: seq<HashRow>, key: string, field: string, value: string): seq<HashRow>
  {
    if rows == [] then [HashRow(key, field, value, None)]
    else if rows[0].key == key && rows[0].field == field then [rows[0].(value := value)] + rows[1..]
    else [rows[0]] + UpsertHash(rows[1..], key, field, value)
  }

  /** The upsert stores `value` for its field and leaves every other field as it was. */
  lemma {:induction false} UpsertHashLookup(rows: seq<HashRow>, key: string, field: string, value: string,
                                            k: string, f: string)
    ensures HashLookup(UpsertHash(rows, key, field, value), k, f)
         == if k == key && f == field then Some(value) else HashLookup(rows, k, f)
  {
    if rows != [] && !(rows[0].key == key && rows[0].field == field) {
      UpsertHashLookup(rows[1..], key, field, value, k, f);
    }
  }

  lemma {:induction false} HashLookupIn(rows: seq<HashRow>, key: string, field: string)
    ensures HashLookup(rows, key, field).Some? <==> exists i :: 0 <= i < |rows| && rows[i].key == key && rows[i].field == field
  {
    if rows != [] {
      HashLookupIn(rows[1..], key, field);
      if HashLookup(rows[1..], key, field).Some? {
        var i :| 0 <= i < |rows[1..]| && rows[1..][i].key == key && rows[1..][i].field == field;
        assert rows[i + 1] == rows[1..][i];
      }
      if exists i :: 0 <= i < |rows| && rows[i].key == key && rows[i].field == field {
        var i :| 0 <= i < |rows| && rows[i].key == key && rows[i].field == field;
        if i > 0 { assert rows[1..][i - 1] == rows[i]; }
      }
    }
  }

  /** The upsert never creates a second row for a (Key, Field) pair. */
  lemma {:induction false} UpsertHashUnique(rows: seq<HashRow>, key: string, field: string, value: string)
    requires UniqueHashFields(rows)
    ensures UniqueHashFields(UpsertHash(rows, key, field, value))
    ensures |UpsertHash(rows, key, field, value)| == |rows| + (if HashLookup(rows, key, field).Some? then 0 else 1)
  {
    if rows != [] {
      if rows[0].key == key && rows[0].field == field {
        var r := UpsertHash(rows, key, field, value);
        assert forall i :: 0 < i < |r| ==> r[i] == rows[i];
      } else {
        UpsertHashUnique(rows[1..], key, field, value);
        var rest := UpsertHash(rows[1..], key, field, value);
        var r := [rows[0]] + rest;
        forall j | 0 <= j < |rest|
          ensures rest[j].key != rows[0].key || rest[j].field != rows[0].field
        {
          UpsertHashMember(rows[1..], key, field, value, j);
        }
        assert forall i :: 0 < i < |r| ==> r[i] == rest[i - 1];
      }
    }
  }

  /** Every row of an upserted table is an old row, possibly with a new value, or the new row. */
  lemma {:induction false} UpsertHashMember(rows: seq<HashRow>, key: string, field: string, value: string, j: nat)
    requires j < |UpsertHash(rows, key, field, value)|
    ensures var r := UpsertHash(rows, key, field, value)[j];
      (r.key == key && r.field == field) ||
      exists i :: 0 <= i < |rows| && rows[i] == r
  {
    if rows != [] && !(rows[0].key == key && rows[0].field == field) && j > 0 {
      UpsertHashMember(rows[1..], key, field, value, j - 1);
      var r := UpsertHash(rows, key, field, value)[j];
      if exists i :: 0 <= i < |rows[1..]| && rows[1..][i] == r {
        var i :| 0 <= i < |rows[1..]| && rows[1..][i] == r;
        assert rows[i + 1] == r;
      }
    } else if rows != [] && j > 0 {
      assert UpsertHash(rows, key, field, value)[j] == rows[j];
    } else if rows != [] && !(rows[0].key == key && rows[0].field == field) {
      assert UpsertHash(rows, key, field, value)[0] == rows[0];
    }
  }

  /** All fields of hash `key`: `select Field, Value from Hash where Key = @key`. */
  function HashFields(rows: seq<HashRow>, key: string): map<string, string>
  {
    if rows == [] then map[]
    else if rows[0].key == key then HashFields(rows[1..], key)[rows[0].field := rows[0].value]
    else HashFields(rows[1..], key)
  }

  /** Every field of a hash maps to the value a lookup of that field finds. */
  lemma {:induction false} HashFieldsLookup(rows: seq<HashRow>, key: string, field: string)
    ensures field in HashFields(rows, key) <==> HashLookup(rows, key, field).Some?
    ensures field in HashFields(rows, key) ==> HashFields(rows, key)[field] == HashLookup(rows, key, field).value
  {
    if rows != [] {
      HashFieldsLookup(rows[1..], key, field);
    }
  }

  // ---------------------------------------------------------------------
  // `delete from T where ...`: the rows that survive, in storage order.
  // ---------------------------------------------------------------------

  /** How many rows satisfy `p`. */
  function CountWhere<R>(rows: seq<R>, p: R -> bool): nat
  {
    if rows == [] then 0 else (if p(rows[0]) then 1 else 0) + CountWhere(rows[1..], p)
  }

  /** The table after deleting every row that satisfies `doomed`. */
  function DeleteWhere<R(!new)>(rows: seq<R>, doomed: R -> bool): (r: seq<R>)
    ensures forall x :: x in r <==> x in rows && !doomed(x)
    ensures |r| == |rows| - CountWhere(rows, doomed)
  {
    if rows == [] then []
    else
      assert forall x :: x in rows <==> x == rows[0] || x in rows[1..];
      if doomed(rows[0]) then DeleteWhere(rows[1..], doomed)
      else [rows[0]] + DeleteWhere(rows[1..], doomed)
  }

  /** A delete keeps the survivors in their relative order: any two of them come from two rows in that order. */
  lemma {:induction false} DeleteWhereKeepsOrder<R(!new)>(rows: seq<R>, doomed: R -> bool, i: nat, j: nat)
    requires i < j < |DeleteWhere(rows, doomed)|
    ensures var r := DeleteWhere(rows, doomed);
      exists a, b :: 0 <= a < b < |rows| && r[i] == rows[a] && r[j] == rows[b]
  {
    var r := DeleteWhere(rows, doomed);
    var rest := DeleteWhere(rows[1..], doomed);
    if doomed(rows[0]) {
      DeleteWhereKeepsOrder(rows[1..], doomed, i, j);
      var a, b :| 0 <= a < b < |rows[1..]| && rest[i] == rows[1..][a] && rest[j] == rows[1..][b];
      assert rows[a + 1] == rows[1..][a] && rows[b + 1] == rows[1..][b];
    } else if i == 0 {
      assert r[j] == rest[j - 1] && r[j] in rest;
      var b :| 0 <= b < |rows[1..]| && rows[1..][b] == r[j];
      assert r[0] == rows[0] && rows[b + 1] == r[j];
    } else {
      DeleteWhereKeepsOrder(rows[1..], doomed, i - 1, j - 1);
      var a, b :| 0 <= a < b < |rows[1..]| && rest[i - 1] == rows[1..][a] && rest[j - 1] == rows[1..][b];
      assert r[i] == rest[i - 1] && r[j] == rest[j - 1];
      assert rows[a + 1] == rows[1..][a] && rows[b + 1] == rows[1..][b];
    }
  }

  /** Deleting rows never breaks the (Key, Field) key of the Hash table. */
  lemma DeleteHashRowsUnique(rows: seq<HashRow>, doomed: HashRow -> bool)
    requires UniqueHashFields(rows)
    ensures UniqueHashFields(DeleteWhere(rows, doomed))
  {
    var r := DeleteWhere(rows, doomed);
    forall i, j | 0 <= i < j < |r| ensures r[i].key != r[j].key || r[i].field != r[j].field {
      DeleteWhereKeepsOrder(rows, doomed, i, j);
    }
  }

  /** After deleting every row of hash `key`, no field of it is found; other hashes are untouched. */
  lemma {:induction false} DeleteHashLookup(rows: seq<HashRow>, key: string, k: string, f: string)
    ensures HashLookup(DeleteWhere(rows, (r: HashRow) => r.key == key), k, f)
         == if k == key then None else HashLookup(rows, k, f)
  {
    if rows != [] {
      DeleteHashLookup(rows[1..], key, k, f);
    }
  }
}
