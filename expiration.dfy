/**
 * The expiration reaper. For each table of `ProcessedTables`, in order, it
 * deletes batches of at most `NumberOfRecordsInSinglePass` rows with
 * `ExpireAt < now` until a batch deletes nothing. A store error in a batch
 * is logged and swallowed, leaving the previous batch's count in place. The
 * token is checked after every non-empty batch. The clock is read for each
 * batch: batch `b` of the run (numbered across all tables) deletes the rows
 * with `ExpireAt < clock(b)`, and meets a store error when `faults[b]`.
 */
module Expiration {
  import opened Wrappers
  import opened Tables
  import opened Storage

  const NumberOfRecordsInSinglePass: nat := 1000

  datatype TableName = AggregatedCounterTable | JobTable | ListTable | SetTable | HashTable

  const ProcessedTables: seq<TableName> := [AggregatedCounterTable, JobTable, ListTable, SetTable, HashTable]

  // ---------------------------------------------------------------------
  // `delete from T where ExpireAt < @now limit @count`, on any row type.
  // ---------------------------------------------------------------------

  function CountExpired<R>(rows: seq<R>, exp: R -> Option<int>, now: int): nat
  {
    if rows == [] then 0 else (if Expired(exp(rows[0]), now) then 1 else 0) + CountExpired(rows[1..], exp, now)
  }

  /** The rows a delete by expiry can never touch: those with NULL or future `ExpireAt`. */
  function Live<R>(rows: seq<R>, exp: R -> Option<int>, now: int): seq<R>
  {
    if rows == [] then []
    else (if Expired(exp(rows[0]), now) then [] else [rows[0]]) + Live(rows[1..], exp, now)
  }

  /** Deletes the first `limit` expired rows in storage order. */
  function DropExpired<R>(rows: seq<R>, exp: R -> Option<int>, now: int, limit: nat): seq<R>
  {
    if rows == [] then []
    else if Expired(exp(rows[0]), now) && limit > 0 then DropExpired(rows[1..], exp, now, limit - 1)
    else [rows[0]] + DropExpired(rows[1..], exp, now, limit)
  }

  function Min(a: nat, b: nat): nat {
    if a < b then a else b
  }

  /** A batch deletes `min(limit, expired)` rows, all of them expired. */
  lemma {:induction false} DropExpiredCounts<R>(rows: seq<R>, exp: R -> Option<int>, now: int, limit: nat)
    ensures var d := Min(limit, CountExpired(rows, exp, now));
      |DropExpired(rows, exp, now, limit)| == |rows| - d &&
      CountExpired(DropExpired(rows, exp, now, limit), exp, now) == CountExpired(rows, exp, now) - d
  {
    if rows != [] {
      DropExpiredCounts(rows[1..], exp, now, if Expired(exp(rows[0]), now) && limit > 0 then limit - 1 else limit);
      if !(Expired(exp(rows[0]), now) && limit > 0) {
        assert DropExpired(rows, exp, now, limit)[1..] == DropExpired(rows[1..], exp, now, limit);
      }
    }
  }

  /**
   * A batch keeps every live row, in order: a row live at `now` is live at
   * any earlier clock `at` the batch deleted with.
   */
  lemma {:induction false} DropExpiredKeepsLive<R>(rows: seq<R>, exp: R -> Option<int>, at: int, now: int, limit: nat)
    requires at <= now
    ensures Live(DropExpired(rows, exp, at, limit), exp, now) == Live(rows, exp, now)
  {
    if rows != [] {
      DropExpiredKeepsLive(rows[1..], exp, at, now, if Expired(exp(rows[0]), at) && limit > 0 then limit - 1 else limit);
      if !(Expired(exp(rows[0]), at) && limit > 0) {
        assert DropExpired(rows, exp, at, limit)[1..] == DropExpired(rows[1..], exp, at, limit);
      }
    }
  }

  /** A batch only deletes: the rows left are rows that were there. */
  lemma {:induction false} DropExpiredOnlyDeletes<R>(rows: seq<R>, exp: R -> Option<int>, now: int, limit: nat)
    ensures multiset(DropExpired(rows, exp, now, limit)) <= multiset(rows)
  {
    if rows != [] {
      DropExpiredOnlyDeletes(rows[1..], exp, now, if Expired(exp(rows[0]), now) && limit > 0 then limit - 1 else limit);
      assert rows == [rows[0]] + rows[1..];
    }
  }

  // ---------------------------------------------------------------------
  // The five processed tables.
  // ---------------------------------------------------------------------

  function AggExpireAt(r: AggregatedRow): Option<int> { r.expireAt }
  function JobExpireAt(r: JobRow): Option<int> { r.expireAt }
  function ListExpireAt(r: ListRow): Option<int> { r.expireAt }
  function SetExpireAt(r: SetRow): Option<int> { r.expireAt }
  function HashExpireAt(r: HashRow): Option<int> { r.expireAt }

  /** The number of rows of `table` with `ExpireAt < now`. */
  function ExpiredCount(t: Tables, table: TableName, now: int): nat
  {
    match table
    case AggregatedCounterTable => CountExpired(t.aggregatedCounters, AggExpireAt, now)
    case JobTable => CountExpired(t.jobs, JobExpireAt, now)
    case ListTable => CountExpired(t.lists, ListExpireAt, now)
    case SetTable => CountExpired(t.sets, SetExpireAt, now)
    case HashTable => CountExpired(t.hashes, HashExpireAt, now)
  }

  /** The number of rows of `table`. */
  function RowCount(t: Tables, table: TableName): nat
  {
    match table
    case AggregatedCounterTable => |t.aggregatedCounters|
    case JobTable => |t.jobs|
    case ListTable => |t.lists|
    case SetTable => |t.sets|
    case HashTable => |t.hashes|
  }

  /** `t2` has the same live rows in `table` as `t1`. */
  predicate SameLive(t1: Tables, t2: Tables, table: TableName, now: int)
  {
    match table
    case AggregatedCounterTable => Live(t2.aggregatedCounters, AggExpireAt, now) == Live(t1.aggregatedCounters, AggExpireAt, now)
    case JobTable => Live(t2.jobs, JobExpireAt, now) == Live(t1.jobs, JobExpireAt, now)
    case ListTable => Live(t2.lists, ListExpireAt, now) == Live(t1.lists, ListExpireAt, now)
    case SetTable => Live(t2.sets, SetExpireAt, now) == Live(t1.sets, SetExpireAt, now)
    case HashTable => Live(t2.hashes, HashExpireAt, now) == Live(t1.hashes, HashExpireAt, now)
  }

  /** `t2` holds the same rows in `table` as `t1`. */
  predicate SameTable(t1: Tables, t2: Tables, table: TableName)
  {
    match table
    case AggregatedCounterTable => t2.aggregatedCounters == t1.aggregatedCounters
    case JobTable => t2.jobs == t1.jobs
    case ListTable => t2.lists == t1.lists
    case SetTable => t2.sets == t1.sets
    case HashTable => t2.hashes == t1.hashes
  }

  /** `t2` differs from `t1` at most in the rows of `table`. */
  predicate SameOutside(t1: Tables, t2: Tables, table: TableName)
  {
    match table
    case AggregatedCounterTable => t2 == t1.(aggregatedCounters := t2.aggregatedCounters)
    case JobTable => t2 == t1.(jobs := t2.jobs)
    case ListTable => t2 == t1.(lists := t2.lists)
    case SetTable => t2 == t1.(sets := t2.sets)
    case HashTable => t2 == t1.(hashes := t2.hashes)
  }

  /** One batch on `table` with the clock at `now`: the new tables and the number of rows deleted. */
  function DeleteBatch(t: Tables, table: TableName, now: int): (Tables, nat)
  {
    var n := Min(NumberOfRecordsInSinglePass, ExpiredCount(t, table, now));
    match table
    case AggregatedCounterTable =>
      (t.(aggregatedCounters := DropExpired(t.aggregatedCounters, AggExpireAt, now, NumberOfRecordsInSinglePass)), n)
    case JobTable => (t.(jobs := DropExpired(t.jobs, JobExpireAt, now, NumberOfRecordsInSinglePass)), n)
    case ListTable => (t.(lists := DropExpired(t.lists, ListExpireAt, now, NumberOfRecordsInSinglePass)), n)
    case SetTable => (t.(sets := DropExpired(t.sets, SetExpireAt, now, NumberOfRecordsInSinglePass)), n)
    case HashTable => (t.(hashes := DropExpired(t.hashes, HashExpireAt, now, NumberOfRecordsInSinglePass)), n)
  }

  /**
   * A batch deletes at most `NumberOfRecordsInSinglePass` rows, only expired
   * ones, from `table` alone; it deletes none exactly when none is expired.
   */
  lemma DeleteBatchFacts(t: Tables, table: TableName, now: int)
    ensures var (t', n) := DeleteBatch(t, table, now);
      n <= NumberOfRecordsInSinglePass &&
      (n == 0 <==> ExpiredCount(t, table, now) == 0) &&
      ExpiredCount(t', table, now) == ExpiredCount(t, table, now) - n &&
      RowCount(t', table) == RowCount(t, table) - n &&
      SameOutside(t, t', table)
  {
    var limit := NumberOfRecordsInSinglePass;
    match table
    case AggregatedCounterTable => DropExpiredCounts(t.aggregatedCounters, AggExpireAt, now, limit);
    case JobTable => DropExpiredCounts(t.jobs, JobExpireAt, now, limit);
    case ListTable => DropExpiredCounts(t.lists, ListExpireAt, now, limit);
    case SetTable => DropExpiredCounts(t.sets, SetExpireAt, now, limit);
    case HashTable => DropExpiredCounts(t.hashes, HashExpireAt, now, limit);
  }

  /** A batch run with the clock at `at` keeps, in every table, the rows live at any later `now`. */
  lemma DeleteBatchKeepsLive(t: Tables, table: TableName, at: int, now: int)
    requires at <= now
    ensures forall x :: SameLive(t, DeleteBatch(t, table, at).0, x, now)
  {
    var limit := NumberOfRecordsInSinglePass;
    match table
    case AggregatedCounterTable => DropExpiredKeepsLive(t.aggregatedCounters, AggExpireAt, at, now, limit);
    case JobTable => DropExpiredKeepsLive(t.jobs, JobExpireAt, at, now, limit);
    case ListTable => DropExpiredKeepsLive(t.lists, ListExpireAt, at, now, limit);
    case SetTable => DropExpiredKeepsLive(t.sets, SetExpireAt, at, now, limit);
    case HashTable => DropExpiredKeepsLive(t.hashes, HashExpireAt, at, now, limit);
  }

  /** A change confined to one table leaves every other table as it was, expired rows included. */
  lemma SameOutsideOthers(t1: Tables, t2: Tables, table: TableName, other: TableName)
    requires SameOutside(t1, t2, table) && other != table
    ensures SameTable(t1, t2, other)
    ensures forall now :: ExpiredCount(t2, other, now) == ExpiredCount(t1, other, now)
  {
  }

  lemma SameTableChain(t1: Tables, t2: Tables, t3: Tables, table: TableName)
    requires SameTable(t1, t2, table) && SameTable(t2, t3, table)
    ensures SameTable(t1, t3, table)
    ensures forall now :: ExpiredCount(t3, table, now) == ExpiredCount(t1, table, now)
  {
  }

  // ---------------------------------------------------------------------
  // The loops of `Execute`, as functions of their inputs.
  // ---------------------------------------------------------------------

  /**
   * Where a run stands: the tables, the next batch number, the next
   * cancellation check, whether the token stopped the run, the tables whose
   * first batch met a store error and were therefore left as they were, and
   * the `removedCount` the last batch left.
   */
  datatype Progress = Progress(tables: Tables, batch: nat, check: nat, cancelled: bool, skipped: set<TableName>,
                               removed: nat)

  predicate Faulty(faults: seq<bool>, b: nat) {
    b < |faults| && faults[b]
  }

  /** The faults still ahead of batch `b`, plus the rows of `table`: what bounds the loop. */
  function LoopMeasure(t: Tables, table: TableName, faults: seq<bool>, b: nat): nat
  {
    (if b < |faults| then |faults| - b else 0) + RowCount(t, table)
  }

  /** Changes confined to one table compose. */
  lemma SameOutsideChain(t1: Tables, t2: Tables, t3: Tables, table: TableName)
    requires SameOutside(t1, t2, table) && SameOutside(t2, t3, table)
    ensures SameOutside(t1, t3, table)
  {
  }

  /**
   * Batch `b` as the loop sees it: after a store error the tables stay and
   * `removedCount` keeps the previous batch's count; otherwise a delete with
   * the clock read for this batch. A batch that leaves a non-zero count
   * brings the loop closer to its end.
   */
  function BatchStep(t: Tables, table: TableName, clock: nat -> int, faults: seq<bool>, b: nat, removedCount: nat)
    : (r: (Tables, nat))
    ensures SameOutside(t, r.0, table)
    ensures Faulty(faults, b) ==> r == (t, removedCount)
    ensures !Faulty(faults, b) ==>
      r.1 <= NumberOfRecordsInSinglePass && (r.1 == 0 <==> ExpiredCount(t, table, clock(b)) == 0) &&
      ExpiredCount(r.0, table, clock(b)) == ExpiredCount(t, table, clock(b)) - r.1
    ensures r.1 > 0 ==> LoopMeasure(r.0, table, faults, b + 1) < LoopMeasure(t, table, faults, b)
  {
    DeleteBatchFacts(t, table, clock(b));
    if Faulty(faults, b) then (t, removedCount) else DeleteBatch(t, table, clock(b))
  }

  /**
   * The `do ... while (removedCount != 0)` loop on `table`, from batch `b` with
   * the count `removedCount` left by the previous batch. Unless the token
   * stopped it or its first batch failed, the loop ends at a batch that
   * found no row expired by that batch's clock.
   */
  function TableLoop(t: Tables, table: TableName, clock: nat -> int, token: CancellationToken, faults: seq<bool>,
                     b: nat, removedCount: nat, c: nat): (r: Progress)
    decreases LoopMeasure(t, table, faults, b)
    ensures r.batch > b && c <= r.check
    ensures r.skipped <= {table}
    ensures r.skipped != {} ==> removedCount == 0 && r.tables == t && Faulty(faults, b) && !r.cancelled
  {
    var (next, n) := BatchStep(t, table, clock, faults, b, removedCount);
    if n > 0 then
      if token.IsCancellationRequested(c) then Progress(next, b + 1, c + 1, true, {}, n)
      else TableLoop(next, table, clock, token, faults, b + 1, n, c + 1)
    else Progress(next, b + 1, c, false, if Faulty(faults, b) then {table} else {}, n)
  }

  /**
   * The loop on `table` changes no other table, and unless the token
   * stopped it or its first batch failed, it ends at a batch that found no
   * row of `table` expired by that batch's clock.
   */
  lemma {:induction false} TableLoopFacts(t: Tables, table: TableName, clock: nat -> int, token: CancellationToken,
                                          faults: seq<bool>, b: nat, removedCount: nat, c: nat)
    decreases LoopMeasure(t, table, faults, b)
    ensures var r := TableLoop(t, table, clock, token, faults, b, removedCount, c);
      SameOutside(t, r.tables, table) &&
      (!r.cancelled && r.skipped == {} ==> ExpiredCount(r.tables, table, clock(r.batch - 1)) == 0)
  {
    var (next, n) := BatchStep(t, table, clock, faults, b, removedCount);
    if n > 0 && !token.IsCancellationRequested(c) {
      TableLoopFacts(next, table, clock, token, faults, b + 1, n, c + 1);
      SameOutsideChain(t, next, TableLoop(next, table, clock, token, faults, b + 1, n, c + 1).tables, table);
    }
  }

  /**
   * The token is read only after a batch that left a non-zero count: the
   * loop ends uncancelled exactly when a batch leaves zero, and it ends
   * cancelled exactly at its first check that finds the token set.
   */
  lemma {:induction false} TableLoopCancellation(t: Tables, table: TableName, clock: nat -> int, token: CancellationToken,
                                                 faults: seq<bool>, b: nat, removedCount: nat, c: nat)
    decreases LoopMeasure(t, table, faults, b)
    ensures var r := TableLoop(t, table, clock, token, faults, b, removedCount, c);
      (r.cancelled <==> r.removed > 0) &&
      (r.cancelled ==> c < r.check && token.IsCancellationRequested(r.check - 1)) &&
      (forall k :: c <= k < r.check && (k + 1 < r.check || !r.cancelled) ==> !token.IsCancellationRequested(k))
  {
    var (next, n) := BatchStep(t, table, clock, faults, b, removedCount);
    if n > 0 && !token.IsCancellationRequested(c) {
      TableLoopCancellation(next, table, clock, token, faults, b + 1, n, c + 1);
    }
  }

  lemma SameLiveChain(t1: Tables, t2: Tables, t3: Tables, now: int)
    requires forall x :: SameLive(t1, t2, x, now)
    requires forall x :: SameLive(t2, t3, x, now)
    ensures forall x :: SameLive(t1, t3, x, now)
  {
    forall x ensures SameLive(t1, t3, x, now) {
      assert SameLive(t1, t2, x, now) && SameLive(t2, t3, x, now);
    }
  }

  /**
   * The loop on `table` keeps every row, of any table, that is live at
   * `now`, when no batch it ran read a clock later than `now` (with a clock
   * that does not go back, `now` can be the last batch's clock).
   */
  lemma {:induction false} TableLoopKeepsLive(t: Tables, table: TableName, clock: nat -> int, token: CancellationToken,
                                              faults: seq<bool>, b: nat, removedCount: nat, c: nat, now: int)
    requires forall p :: b <= p < TableLoop(t, table, clock, token, faults, b, removedCount, c).batch ==> clock(p) <= now
    decreases LoopMeasure(t, table, faults, b)
    ensures forall x :: SameLive(t, TableLoop(t, table, clock, token, faults, b, removedCount, c).tables, x, now)
  {
    var r := TableLoop(t, table, clock, token, faults, b, removedCount, c);
    assert clock(b) <= now;
    DeleteBatchKeepsLive(t, table, clock(b), now);
    var (next, n) := BatchStep(t, table, clock, faults, b, removedCount);
    assert forall x :: SameLive(t, next, x, now);
    if n > 0 && !token.IsCancellationRequested(c) {
      assert r == TableLoop(next, table, clock, token, faults, b + 1, n, c + 1);
      TableLoopKeepsLive(next, table, clock, token, faults, b + 1, n, c + 1, now);
      SameLiveChain(t, next, r.tables, now);
    }
  }

  /** The `foreach` over the tables of `order`; `skipped` accumulates the skipped tables. */
  function Sweep(t: Tables, order: seq<TableName>, clock: nat -> int, token: CancellationToken, faults: seq<bool>,
                 b: nat, c: nat, skipped: set<TableName>): (r: Progress)
    decreases |order|
    ensures r.batch >= b
  {
    if order == [] then Progress(t, b, c, false, skipped, 0)
    else
      var e := TableLoop(t, order[0], clock, token, faults, b, 0, c);
      if e.cancelled then e.(skipped := skipped + e.skipped)
      else Sweep(e.tables, order[1..], clock, token, faults, e.batch, e.check, skipped + e.skipped)
  }

  predicate DistinctTables(order: seq<TableName>) {
    forall i, j :: 0 <= i < j < |order| ==> order[i] != order[j]
  }

  /** The tables after the first of a list of distinct tables are distinct and do not include it. */
  lemma DistinctTail(order: seq<TableName>)
    requires DistinctTables(order) && order != []
    ensures DistinctTables(order[1..]) && order[0] !in order[1..]
  {
    var rest := order[1..];
    forall i, j | 0 <= i < j < |rest| ensures rest[i] != rest[j] {
      assert rest[i] == order[i + 1] && rest[j] == order[j + 1];
    }
    forall j | 0 <= j < |rest| ensures rest[j] != order[0] {
      assert rest[j] == order[j + 1];
    }
  }

  /**
   * A run leaves the tables outside the order untouched. When it is not
   * cancelled, every table it processed, except those whose first batch met
   * a store error, reached a batch of the run that found no row expired by
   * that batch's clock, and no later batch touched that table.
   */
  lemma {:induction false} SweepFacts(t: Tables, order: seq<TableName>, clock: nat -> int, token: CancellationToken,
                                      faults: seq<bool>, b: nat, c: nat, skipped: set<TableName>)
    requires DistinctTables(order)
    decreases |order|
    ensures var r := Sweep(t, order, clock, token, faults, b, c, skipped);
      (forall x :: x !in order ==> SameTable(t, r.tables, x)) &&
      skipped <= r.skipped &&
      (!r.cancelled ==> forall x :: x in order && x !in r.skipped ==>
         exists p :: b <= p < r.batch && ExpiredCount(r.tables, x, clock(p)) == 0)
  {
    if order != [] {
      var e := TableLoop(t, order[0], clock, token, faults, b, 0, c);
      TableLoopFacts(t, order[0], clock, token, faults, b, 0, c);
      forall x | x != order[0] ensures SameTable(t, e.tables, x) {
        SameOutsideOthers(t, e.tables, order[0], x);
      }
      if !e.cancelled {
        var rest := order[1..];
        DistinctTail(order);
        SweepFacts(e.tables, rest, clock, token, faults, e.batch, e.check, skipped + e.skipped);
        var r := Sweep(e.tables, rest, clock, token, faults, e.batch, e.check, skipped + e.skipped);
        assert Sweep(t, order, clock, token, faults, b, c, skipped) == r;
        forall x | x !in order ensures SameTable(t, r.tables, x) {
          assert x != order[0] && x !in rest;
          SameTableChain(t, e.tables, r.tables, x);
        }
        if !r.cancelled {
          forall x | x in order && x !in r.skipped
            ensures exists p :: b <= p < r.batch && ExpiredCount(r.tables, x, clock(p)) == 0
          {
            if x == order[0] {
              assert e.skipped <= r.skipped;
              assert e.skipped == {};
              var p := e.batch - 1;
              assert ExpiredCount(e.tables, x, clock(p)) == 0;
              assert SameTable(e.tables, r.tables, x);
              SameTableChain(e.tables, e.tables, r.tables, x);
              assert b <= p < r.batch && ExpiredCount(r.tables, x, clock(p)) == 0;
            } else {
              assert x in rest;
              var p :| e.batch <= p < r.batch && ExpiredCount(r.tables, x, clock(p)) == 0;
              assert b <= p;
            }
          }
        }
      }
    }
  }

  /** Every table after position `k` of `order` holds in `t2` the rows it held in `t1`. */
  predicate UntouchedAfter(t1: Tables, t2: Tables, order: seq<TableName>, k: nat) {
    forall j :: k < j < |order| ==> SameTable(t1, t2, order[j])
  }

  /**
   * The run over `order` was stopped by the loop on `order[k]`: the tables
   * before it ran to their ends uncancelled, the loop on `order[k]` was
   * cancelled, and the run ended in that loop's state.
   */
  predicate StoppedIn(t: Tables, order: seq<TableName>, clock: nat -> int, token: CancellationToken, faults: seq<bool>,
                      b: nat, c: nat, skipped: set<TableName>, k: nat, r: Progress)
  {
    k < |order| &&
    var m := Sweep(t, order[..k], clock, token, faults, b, c, skipped);
    var e := TableLoop(m.tables, order[k], clock, token, faults, m.batch, 0, m.check);
    !m.cancelled && e.cancelled && r.tables == e.tables && r.batch == e.batch && r.check == e.check
  }

  /**
   * A cancelled run stopped right after a batch that left a non-zero count,
   * at a check that found the token set.
   */
  lemma {:induction false} SweepCancellation(t: Tables, order: seq<TableName>, clock: nat -> int, token: CancellationToken,
                                             faults: seq<bool>, b: nat, c: nat, skipped: set<TableName>)
    decreases |order|
    ensures var r := Sweep(t, order, clock, token, faults, b, c, skipped);
      (r.cancelled <==> r.removed > 0) &&
      (r.cancelled ==> c < r.check && token.IsCancellationRequested(r.check - 1))
  {
    if order != [] {
      var e := TableLoop(t, order[0], clock, token, faults, b, 0, c);
      TableLoopCancellation(t, order[0], clock, token, faults, b, 0, c);
      if !e.cancelled {
        SweepCancellation(e.tables, order[1..], clock, token, faults, e.batch, e.check, skipped + e.skipped);
      }
    }
  }

  /** When the first table's loop is not cancelled, stopping in `rest[k]` is stopping in `order[k + 1]`. */
  lemma StoppedInShift(t: Tables, order: seq<TableName>, clock: nat -> int, token: CancellationToken,
                       faults: seq<bool>, b: nat, c: nat, skipped: set<TableName>, k: nat, r: Progress)
    requires order != []
    requires var e := TableLoop(t, order[0], clock, token, faults, b, 0, c);
      !e.cancelled && StoppedIn(e.tables, order[1..], clock, token, faults, e.batch, e.check, skipped + e.skipped, k, r)
    ensures StoppedIn(t, order, clock, token, faults, b, c, skipped, k + 1, r)
  {
    var e := TableLoop(t, order[0], clock, token, faults, b, 0, c);
    var prefix := order[..k + 1];
    assert prefix[0] == order[0] && prefix[1..] == order[1..][..k];
    assert Sweep(t, prefix, clock, token, faults, b, c, skipped)
        == Sweep(e.tables, order[1..][..k], clock, token, faults, e.batch, e.check, skipped + e.skipped);
    assert order[k + 1] == order[1..][k];
  }

  /**
   * A cancelled run was stopped inside the loop of one table `order[k]`,
   * ended in that loop's state, and left the tables after it in the order
   * untouched.
   */
  lemma {:induction false} SweepStopsIn(t: Tables, order: seq<TableName>, clock: nat -> int, token: CancellationToken,
                                        faults: seq<bool>, b: nat, c: nat, skipped: set<TableName>)
    requires DistinctTables(order)
    decreases |order|
    ensures var r := Sweep(t, order, clock, token, faults, b, c, skipped);
      r.cancelled ==> exists k :: StoppedIn(t, order, clock, token, faults, b, c, skipped, k, r) &&
                                 UntouchedAfter(t, r.tables, order, k)
  {
    if order != [] {
      var r := Sweep(t, order, clock, token, faults, b, c, skipped);
      var e := TableLoop(t, order[0], clock, token, faults, b, 0, c);
      TableLoopFacts(t, order[0], clock, token, faults, b, 0, c);
      forall x | x != order[0] ensures SameTable(t, e.tables, x) {
        SameOutsideOthers(t, e.tables, order[0], x);
      }
      if e.cancelled {
        assert order[..0] == [];
        assert StoppedIn(t, order, clock, token, faults, b, c, skipped, 0, r);
        assert UntouchedAfter(t, e.tables, order, 0);
      } else {
        var rest := order[1..];
        DistinctTail(order);
        SweepStopsIn(e.tables, rest, clock, token, faults, e.batch, e.check, skipped + e.skipped);
        assert r == Sweep(e.tables, rest, clock, token, faults, e.batch, e.check, skipped + e.skipped);
        if r.cancelled {
          var k: nat :| StoppedIn(e.tables, rest, clock, token, faults, e.batch, e.check, skipped + e.skipped, k, r) &&
                        UntouchedAfter(e.tables, r.tables, rest, k);
          StoppedInShift(t, order, clock, token, faults, b, c, skipped, k, r);
          forall j | k + 1 < j < |order| ensures SameTable(t, r.tables, order[j]) {
            assert order[j] == rest[j - 1] && order[j] != order[0];
            SameTableChain(t, e.tables, r.tables, order[j]);
          }
          assert UntouchedAfter(t, r.tables, order, k + 1);
        }
      }
    }
  }

  /**
   * A run keeps every row, of every table, that is live at `now`, when no
   * batch of the run read a clock later than `now`.
   */
  lemma {:induction false} SweepKeepsLive(t: Tables, order: seq<TableName>, clock: nat -> int, token: CancellationToken,
                                          faults: seq<bool>, b: nat, c: nat, skipped: set<TableName>, now: int)
    requires forall p :: b <= p < Sweep(t, order, clock, token, faults, b, c, skipped).batch ==> clock(p) <= now
    decreases |order|
    ensures forall x :: SameLive(t, Sweep(t, order, clock, token, faults, b, c, skipped).tables, x, now)
  {
    if order != [] {
      var r := Sweep(t, order, clock, token, faults, b, c, skipped);
      var e := TableLoop(t, order[0], clock, token, faults, b, 0, c);
      if e.cancelled {
        TableLoopKeepsLive(t, order[0], clock, token, faults, b, 0, c, now);
      } else {
        assert r == Sweep(e.tables, order[1..], clock, token, faults, e.batch, e.check, skipped + e.skipped);
        TableLoopKeepsLive(t, order[0], clock, token, faults, b, 0, c, now);
        SweepKeepsLive(e.tables, order[1..], clock, token, faults, e.batch, e.check, skipped + e.skipped, now);
        SameLiveChain(t, e.tables, r.tables, now);
      }
    }
  }

  /**
   * `t2` differs from `t1` at most in the five tables the reaper deletes
   * from: jobs' states, parameters, the job queue, raw counters, servers and
   * the id counters are as they were.
   */
  predicate ProcessedOnly(t1: Tables, t2: Tables) {
    t2 == t1.(aggregatedCounters := t2.aggregatedCounters, jobs := t2.jobs, lists := t2.lists, sets := t2.sets,
              hashes := t2.hashes)
  }

  /** A run changes nothing but the processed tables. */
  lemma {:induction false} SweepChangesOnlyProcessed(t: Tables, order: seq<TableName>, clock: nat -> int,
                                                     token: CancellationToken, faults: seq<bool>, b: nat, c: nat,
                                                     skipped: set<TableName>)
    decreases |order|
    ensures ProcessedOnly(t, Sweep(t, order, clock, token, faults, b, c, skipped).tables)
  {
    if order != [] {
      var e := TableLoop(t, order[0], clock, token, faults, b, 0, c);
      TableLoopFacts(t, order[0], clock, token, faults, b, 0, c);
      assert ProcessedOnly(t, e.tables);
      if !e.cancelled {
        SweepChangesOnlyProcessed(e.tables, order[1..], clock, token, faults, e.batch, e.check, skipped + e.skipped);
      }
    }
  }

  /** The processed tables are five distinct tables. */
  lemma ProcessedTablesDistinct()
    ensures DistinctTables(ProcessedTables) && |ProcessedTables| == 5
  {
  }

  class ExpirationManager {
    const storage: MySqlStorage
    /** `_checkInterval`, in seconds: the wait after a run, which the model does not perform. */
    const checkInterval: int

    constructor (storage: MySqlStorage, checkInterval: int)
      ensures this.storage == storage && this.checkInterval == checkInterval
    {
      this.storage := storage;
      this.checkInterval := checkInterval;
    }

    /** The constructor with its guard: a missing storage is refused. */
    static method New(storage: Option<MySqlStorage>, checkInterval: int) returns (r: Result<ExpirationManager>)
      ensures r.Err? <==> storage.None?
      ensures r.Err? ==> r.error == ArgumentNull("storage")
      ensures r.Ok? ==> fresh(r.value) && r.value.storage == storage.value && r.value.checkInterval == checkInterval
    {
      if storage.None? {
        return Err(ArgumentNull("storage"));
      }
      var m := new ExpirationManager(storage.value, checkInterval);
      return Ok(m);
    }

    /**
     * One batch through `UseConnection`. A store error (`fault`) is caught and
     * logged inside the callback, which then leaves the previous count.
     */
    method RunBatch(table: TableName, now: int, fault: bool, previous: nat) returns (removedCount: nat)
      requires storage.Valid()
      modifies storage`connections, storage`nextConnection, storage.db
      ensures storage.Valid() && storage.connections == old(storage.connections)
      ensures (storage.db.tables, removedCount)
           == if fault then (old(storage.db.tables), previous) else DeleteBatch(old(storage.db.tables), table, now)
    {
      var out := storage.UseConnection((t: Tables) =>
        if fault then Ok((t, previous)) else var d := DeleteBatch(t, table, now); Ok((d.0, d.1)));
      removedCount := out.value;
    }

    /**
     * The `do ... while` loop of `Execute` on one table, from batch `b` and
     * cancellation check `c`.
     */
    method ProcessTable(table: TableName, clock: nat -> int, token: CancellationToken, faults: seq<bool>, b: nat, c: nat)
      returns (batch: nat, check: nat, cancelled: bool)
      requires storage.Valid()
      modifies storage`connections, storage`nextConnection, storage.db
      ensures storage.Valid() && storage.connections == old(storage.connections)
      ensures var e := TableLoop(old(storage.db.tables), table, clock, token, faults, b, 0, c);
        storage.db.tables == e.tables && batch == e.batch && check == e.check && cancelled == e.cancelled
    {
      ghost var e := TableLoop(storage.db.tables, table, clock, token, faults, b, 0, c);
      var removedCount: nat := 0;
      batch, check := b, c;
      while true
        invariant storage.Valid() && storage.connections == old(storage.connections)
        invariant e == TableLoop(storage.db.tables, table, clock, token, faults, batch, removedCount, check)
        decreases LoopMeasure(storage.db.tables, table, faults, batch)
      {
        ghost var step := BatchStep(storage.db.tables, table, clock, faults, batch, removedCount);
        removedCount := RunBatch(table, clock(batch), Faulty(faults, batch), removedCount);
        assert (storage.db.tables, removedCount) == step;
        batch := batch + 1;
        if removedCount == 0 {
          return batch, check, false;
        }
        if token.IsCancellationRequested(check) {
          return batch, check + 1, true;
        }
        check := check + 1;
      }
    }

    /** `Execute(cancellationToken)`: the tables of `ProcessedTables`, in order. */
    method Execute(token: CancellationToken, clock: nat -> int, faults: seq<bool>) returns (r: Outcome)
      requires storage.Valid()
      modifies storage`connections, storage`nextConnection, storage.db
      ensures storage.Valid() && storage.connections == old(storage.connections)
      ensures var e := Sweep(old(storage.db.tables), ProcessedTables, clock, token, faults, 0, 0, {});
        storage.db.tables == e.tables && (r.Fail? <==> e.cancelled) && (r.Fail? ==> r.error == OperationCanceled)
      ensures ProcessedOnly(old(storage.db.tables), storage.db.tables)
      ensures var e := Sweep(old(storage.db.tables), ProcessedTables, clock, token, faults, 0, 0, {});
        r.Fail? ==> exists k :: StoppedIn(old(storage.db.tables), ProcessedTables, clock, token, faults, 0, 0, {}, k, e) &&
                               UntouchedAfter(old(storage.db.tables), storage.db.tables, ProcessedTables, k)
    {
      ghost var start := storage.db.tables;
      ProcessedTablesDistinct();
      SweepStopsIn(start, ProcessedTables, clock, token, faults, 0, 0, {});
      SweepChangesOnlyProcessed(start, ProcessedTables, clock, token, faults, 0, 0, {});
      var b: nat, c: nat := 0, 0;
      ghost var skipped: set<TableName> := {};
      for i := 0 to |ProcessedTables|
        invariant storage.Valid() && storage.connections == old(storage.connections)
        invariant Sweep(start, ProcessedTables, clock, token, faults, 0, 0, {})
               == Sweep(storage.db.tables, ProcessedTables[i..], clock, token, faults, b, c, skipped)
      {
        var table := ProcessedTables[i];
        ghost var e := TableLoop(storage.db.tables, table, clock, token, faults, b, 0, c);
        assert ProcessedTables[i..][0] == table && ProcessedTables[i..][1..] == ProcessedTables[i + 1..];
        var cancelled;
        b, c, cancelled := ProcessTable(table, clock, token, faults, b, c);
        skipped := skipped + e.skipped;
        if cancelled {
          return Fail(OperationCanceled);
        }
      }
      r := Pass;
    }
  }
}
