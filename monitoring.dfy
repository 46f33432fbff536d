/**
 * The dashboard's read side. Every query runs on the storage's tables without
 * changing them. The queue-monitoring API of each provider is an input: a
 * `QueueMonitor` says what a provider reports for its queues.
 */
module Monitoring {
  import opened Wrappers
  import opened Text
  import opened Tables
  import opened StorageOptions
  import opened QueueProviders
  import opened Storage
  import Aggregator

  // ---------------------------------------------------------------------
  // A stable insertion sort, the model of LINQ `OrderBy`.
  // ---------------------------------------------------------------------

  predicate SortedBy<T>(s: seq<T>, le: (T, T) -> bool) {
    forall i, j :: 0 <= i < j < |s| ==> le(s[i], s[j])
  }

  ghost predicate TotalPreorder<T(!new)>(le: (T, T) -> bool) {
    (forall a, b :: le(a, b) || le(b, a)) &&
    (forall a, b, c :: le(a, b) && le(b, c) ==> le(a, c))
  }

  /** `x` inserted into `s` before the first element it is not above. */
  function InsertBy<T(==)>(x: T, s: seq<T>, le: (T, T) -> bool): (r: seq<T>)
    ensures multiset(r) == multiset(s) + multiset{x}
  {
    if s == [] then [x]
    else if le(x, s[0]) then [x] + s
    else
      assert s == [s[0]] + s[1..];
      [s[0]] + InsertBy(x, s[1..], le)
  }

  function SortBy<T(==)>(s: seq<T>, le: (T, T) -> bool): (r: seq<T>)
    ensures multiset(r) == multiset(s)
  {
    if s == [] then []
    else
      assert s == [s[0]] + s[1..];
      InsertBy(s[0], SortBy(s[1..], le), le)
  }

  lemma {:induction false} InsertBySorted<T(!new)>(x: T, s: seq<T>, le: (T, T) -> bool)
    requires TotalPreorder(le) && SortedBy(s, le)
    ensures SortedBy(InsertBy(x, s, le), le)
  {
    if s != [] && !le(x, s[0]) {
      var rest := InsertBy(x, s[1..], le);
      assert SortedBy(s[1..], le) by {
        forall i, j | 0 <= i < j < |s[1..]| ensures le(s[1..][i], s[1..][j]) {
          assert s[1..][i] == s[i + 1] && s[1..][j] == s[j + 1];
        }
      }
      InsertBySorted(x, s[1..], le);
      forall k | 0 <= k < |rest| ensures le(s[0], rest[k]) {
        assert rest[k] in multiset(rest);
        if rest[k] != x {
          assert rest[k] in multiset(s[1..]);
          var m :| 0 <= m < |s[1..]| && s[1..][m] == rest[k];
          assert s[m + 1] == rest[k];
        }
      }
      var r := [s[0]] + rest;
      forall i, j | 0 <= i < j < |r| ensures le(r[i], r[j]) {
        if i == 0 {
          assert r[j] == rest[j - 1];
        } else {
          assert r[i] == rest[i - 1] && r[j] == rest[j - 1];
        }
      }
    }
  }

  /** `SortBy` puts its input in order under any total preorder. */
  lemma {:induction false} SortBySorted<T(!new)>(s: seq<T>, le: (T, T) -> bool)
    requires TotalPreorder(le)
    ensures SortedBy(SortBy(s, le), le)
  {
    if s != [] {
      SortBySorted(s[1..], le);
      InsertBySorted(s[0], SortBy(s[1..], le), le);
    }
  }

  // ---------------------------------------------------------------------
  // What a provider's queue-monitoring API reports.
  // ---------------------------------------------------------------------

  datatype QueueCounts = QueueCounts(enqueuedCount: Option<int>, fetchedCount: Option<int>)

  /**
   * A provider's `GetQueues()`, `GetEnqueuedAndFetchedCount(queue)` and
   * `GetEnqueuedJobIds(queue, from, perPage)`.
   */
  datatype QueueMonitor = QueueMonitor(queues: seq<string>,
                                       counts: string -> QueueCounts,
                                       enqueuedJobIds: (string, int, int) -> seq<int>)

  /** `x ?? 0`. */
  function OrZero(x: Option<int>): (r: int)
    ensures x.None? ==> r == 0
    ensures x.Some? ==> r == x.value
  {
    match x
    case None => 0
    case Some(v) => v
  }

  /** The monitors of the providers, in the collection's enumeration order. */
  function MonitorsOf(providers: seq<Provider>, monitorOf: Provider -> QueueMonitor): (r: seq<QueueMonitor>)
    ensures |r| == |providers|
  {
    seq(|providers|, i requires 0 <= i < |providers| => monitorOf(providers[i]))
  }

  /**
   * `SelectMany(x => x.GetQueues(), ...)`: one (monitor index, queue) pair per
   * queue a provider reports, providers in order.
   */
  function QueuePairs(monitors: seq<QueueMonitor>): (r: seq<(nat, string)>)
    ensures forall p :: p in r ==> p.0 < |monitors|
    ensures |r| == TotalQueues(monitors)
  {
    if monitors == [] then []
    else
      var n := |monitors| - 1;
      var init := QueuePairs(monitors[..n]);
      var own := seq(|monitors[n].queues|, j requires 0 <= j < |monitors[n].queues| => (n, monitors[n].queues[j]));
      init + own
  }

  /** The number of queues the providers report together. */
  function TotalQueues(monitors: seq<QueueMonitor>): nat
  {
    if monitors == [] then 0
    else TotalQueues(monitors[..|monitors| - 1]) + |monitors[|monitors| - 1].queues|
  }

  /** Every queue a provider reports appears in the pairs, with that provider's index. */
  lemma {:induction false} QueuePairsComplete(monitors: seq<QueueMonitor>, m: nat, j: nat)
    requires m < |monitors| && j < |monitors[m].queues|
    ensures (m, monitors[m].queues[j]) in QueuePairs(monitors)
  {
    var n := |monitors| - 1;
    if m < n {
      assert monitors[..n][m] == monitors[m];
      QueuePairsComplete(monitors[..n], m, j);
    } else {
      var own := seq(|monitors[n].queues|, k requires 0 <= k < |monitors[n].queues| => (n, monitors[n].queues[k]));
      assert own[j] == (m, monitors[m].queues[j]);
    }
  }

  /** `OrderBy(x => x.Queue)`: queue names compared ordinally. */
  function QueueNameLe(a: (nat, string), b: (nat, string)): bool {
    OrdinalLe(a.1, b.1)
  }

  lemma QueueNameOrder()
    ensures TotalPreorder(QueueNameLe)
  {
    forall a: (nat, string), b: (nat, string) ensures QueueNameLe(a, b) || QueueNameLe(b, a) {
      OrdinalTotal(a.1, b.1);
    }
    forall a: (nat, string), b: (nat, string), c: (nat, string) | QueueNameLe(a, b) && QueueNameLe(b, c)
      ensures QueueNameLe(a, c)
    {
      OrdinalTransitive(a.1, b.1, c.1);
    }
  }

  /** The queue pairs of `Queues()` in the order it reports them. */
  function SortedQueues(monitors: seq<QueueMonitor>): seq<(nat, string)>
  {
    SortBy(QueuePairs(monitors), QueueNameLe)
  }

  /** The pairs of `Queues()` are sorted by name and are the providers' queues, each once per report. */
  lemma SortedQueuesFacts(monitors: seq<QueueMonitor>)
    ensures SortedBy(SortedQueues(monitors), QueueNameLe)
    ensures multiset(SortedQueues(monitors)) == multiset(QueuePairs(monitors))
    ensures |SortedQueues(monitors)| == TotalQueues(monitors)
    ensures forall p :: p in SortedQueues(monitors) ==> p.0 < |monitors|
  {
    QueueNameOrder();
    SortBySorted(QueuePairs(monitors), QueueNameLe);
    var s := SortedQueues(monitors);
    assert |s| == |multiset(s)| == |multiset(QueuePairs(monitors))| == |QueuePairs(monitors)|;
    forall p | p in s ensures p.0 < |monitors| {
      assert p in multiset(s);
    }
  }

  // ---------------------------------------------------------------------
  // Job lists.
  // ---------------------------------------------------------------------

  /** A `JobList` entry: the job id as text and the state name the dashboard shows. */
  datatype JobEntry = JobEntry(id: string, stateName: Option<string>)

  /** The key `job.Id.ToString()` and the job's state. */
  function Entry(job: JobRow): JobEntry {
    JobEntry(IntString(job.id), job.stateName)
  }

  /** `DeserializeJobs`: one entry per job row, in the order of the rows. */
  method DeserializeJobs(jobs: seq<JobRow>) returns (result: seq<JobEntry>)
    ensures |result| == |jobs|
    ensures forall i :: 0 <= i < |jobs| ==> result[i] == Entry(jobs[i])
  {
    result := [];
    for i := 0 to |jobs|
      invariant |result| == i
      invariant forall k :: 0 <= k < i ==> result[k] == Entry(jobs[k])
    {
      result := result + [Entry(jobs[i])];
    }
  }

  /** Each entry's key reads back as the id of its job. */
  lemma EntryKeyIsJobId(job: JobRow)
    ensures IsIntString(Entry(job).id) && ParseInt(Entry(job).id) == job.id
  {
    IntStringRoundTrip(job.id);
  }

  /** The rows `where j.Id in @jobIds`, in storage order; no query without ids. */
  function JobsWithIds(jobs: seq<JobRow>, ids: seq<int>): (r: seq<JobRow>)
    ensures ids == [] ==> r == []
    ensures forall j :: j in r <==> j in jobs && j.id in ids
  {
    if ids == [] then [] else DeleteWhere(jobs, (j: JobRow) => j.id !in ids)
  }

  /** `StateName = @state`: the jobs in the state, in storage order. */
  function StateJobs(jobs: seq<JobRow>, stateName: string): seq<JobRow>
  {
    DeleteWhere(jobs, (j: JobRow) => j.stateName != Some(stateName))
  }

  /** `count(Id) ... where StateName = @state`. */
  function CountInState(jobs: seq<JobRow>, stateName: string): nat
  {
    CountWhere(jobs, (j: JobRow) => j.stateName == Some(stateName))
  }

  lemma {:induction false} CountComplement<R>(rows: seq<R>, p: R -> bool, q: R -> bool)
    requires forall x :: q(x) == !p(x)
    ensures CountWhere(rows, p) + CountWhere(rows, q) == |rows|
  {
    if rows != [] {
      CountComplement(rows[1..], p, q);
    }
  }

  /** The jobs selected by state are as many as the count of that state. */
  lemma StateJobsCount(jobs: seq<JobRow>, stateName: string)
    ensures |StateJobs(jobs, stateName)| == CountInState(jobs, stateName)
  {
    CountComplement(jobs, (j: JobRow) => j.stateName == Some(stateName), (j: JobRow) => j.stateName != Some(stateName));
  }

  /** `GetNumberOfJobsByStateName`: with a limit, the count of the first `limit` jobs in the state. */
  function JobCountByState(jobs: seq<JobRow>, stateName: string, limit: Option<int>): (r: Result<nat>)
    ensures limit.None? ==> r == Ok(CountInState(jobs, stateName))
    ensures limit.Some? && limit.value >= 0 ==>
      r == Ok(if CountInState(jobs, stateName) < limit.value then CountInState(jobs, stateName) else limit.value)
    ensures limit.Some? && limit.value < 0 ==> r == Err(StoreError)
  {
    var selected := StateJobs(jobs, stateName);
    StateJobsCount(jobs, stateName);
    match limit
    case None => Ok(|selected|)
    case Some(l) =>
      // MySQL refuses a negative LIMIT.
      if l < 0 then Err(StoreError)
      else Ok(|selected[..if |selected| < l then |selected| else l]|)
  }

  /** `order by j.Id desc`. */
  function IdDescending(a: JobRow, b: JobRow): bool {
    a.id >= b.id
  }

  lemma IdDescendingOrder()
    ensures TotalPreorder(IdDescending)
  {
  }

  /** The jobs in the state, numbered by `@rownum` in id-descending order. */
  function RankedJobs(jobs: seq<JobRow>, stateName: string): seq<JobRow>
  {
    SortBy(StateJobs(jobs, stateName), IdDescending)
  }

  /** The first ranked position of `GetJobs(from, count)`. */
  function PageStart(n: nat, from: int): nat
  {
    if from < 0 then 0 else if from > n then n else from
  }

  /** One past the last ranked position of `GetJobs(from, count)`. */
  function PageEnd(n: nat, from: int, count: int): nat
  {
    var lo := PageStart(n, from);
    if from + count < lo then lo else if from + count > n then n else from + count
  }

  /** `where j.rank between @from + 1 and @from + count`. */
  function JobsPage(jobs: seq<JobRow>, stateName: string, from: int, count: int): seq<JobRow>
  {
    var ranked := RankedJobs(jobs, stateName);
    ranked[PageStart(|ranked|, from)..PageEnd(|ranked|, from, count)]
  }

  /** Position `k` (rank `k + 1`) falls in `between @from + 1 and @from + count`. */
  predicate OnPage(k: int, from: int, count: int) {
    from + 1 <= k + 1 <= from + count
  }

  /** The window of ranked positions a page takes: those on the page, at most `count`. */
  lemma PageBounds(n: nat, from: int, count: int)
    ensures PageStart(n, from) <= PageEnd(n, from, count) <= n
    ensures PageEnd(n, from, count) - PageStart(n, from) <= if count < 0 then 0 else count
    ensures forall k :: 0 <= k < n ==> (PageStart(n, from) <= k < PageEnd(n, from, count) <==> OnPage(k, from, count))
  {
  }

  /**
   * A page holds exactly the ranked jobs whose rank lies in `from + 1 .. from + count`,
   * in rank order, and at most `count` of them.
   */
  lemma JobsPageWindow(jobs: seq<JobRow>, stateName: string, from: int, count: int)
    ensures var ranked := RankedJobs(jobs, stateName);
      var page := JobsPage(jobs, stateName, from, count);
      var lo := PageStart(|ranked|, from);
      (forall i :: 0 <= i < |page| ==> lo + i < |ranked| && page[i] == ranked[lo + i] && OnPage(lo + i, from, count)) &&
      (forall k :: 0 <= k < |ranked| && OnPage(k, from, count) ==> lo <= k < lo + |page| && ranked[k] == page[k - lo]) &&
      |page| <= (if count < 0 then 0 else count)
  {
    var ranked := RankedJobs(jobs, stateName);
    PageBounds(|ranked|, from, count);
  }

  /** Every job on a page is a job of the table in the requested state. */
  lemma JobsPageMembers(jobs: seq<JobRow>, stateName: string, from: int, count: int)
    ensures var page := JobsPage(jobs, stateName, from, count);
      forall i :: 0 <= i < |page| ==> page[i].stateName == Some(stateName) && page[i] in jobs
  {
    var ranked := RankedJobs(jobs, stateName);
    var page := JobsPage(jobs, stateName, from, count);
    PageBounds(|ranked|, from, count);
    forall i | 0 <= i < |page| ensures page[i].stateName == Some(stateName) && page[i] in jobs {
      assert page[i] in ranked;
      assert page[i] in multiset(ranked);
      assert page[i] in StateJobs(jobs, stateName);
    }
  }

  /** A page lists its jobs newest id first. */
  lemma JobsPageOrder(jobs: seq<JobRow>, stateName: string, from: int, count: int)
    ensures var page := JobsPage(jobs, stateName, from, count);
      forall i, j :: 0 <= i < j < |page| ==> page[i].id >= page[j].id
  {
    var ranked := RankedJobs(jobs, stateName);
    var page := JobsPage(jobs, stateName, from, count);
    var lo := PageStart(|ranked|, from);
    PageBounds(|ranked|, from, count);
    IdDescendingOrder();
    SortBySorted(StateJobs(jobs, stateName), IdDescending);
    forall i, j | 0 <= i < j < |page| ensures page[i].id >= page[j].id {
      assert page[i] == ranked[lo + i] && page[j] == ranked[lo + j];
      assert IdDescending(ranked[lo + i], ranked[lo + j]);
    }
  }

  /** Every job in the state has a rank. */
  lemma RankedJobsComplete(jobs: seq<JobRow>, stateName: string, job: JobRow)
    requires job in jobs && job.stateName == Some(stateName)
    ensures job in RankedJobs(jobs, stateName)
  {
    assert job in multiset(StateJobs(jobs, stateName));
    assert job in multiset(RankedJobs(jobs, stateName));
  }

  // ---------------------------------------------------------------------
  // Statistics.
  // ---------------------------------------------------------------------

  /** SQL `SUM` over a column that may hold NULL: NULL when every value is NULL. */
  function SumIgnoringNull(values: seq<Option<int>>): Option<int>
  {
    if values == [] then None
    else
      AddIgnoringNull(values[0], SumIgnoringNull(values[1..]))
  }

  /** SQL `SUM` of two values. */
  function AddIgnoringNull(a: Option<int>, b: Option<int>): (r: Option<int>)
    ensures r.None? <==> a.None? && b.None?
    ensures OrZero(r) == OrZero(a) + OrZero(b)
  {
    match (a, b)
    case (None, _) => b
    case (Some(x), None) => Some(x)
    case (Some(x), Some(y)) => Some(x + y)
  }

  /** `select Value from AggregatedCounter where Key = @key`. */
  function AggregatedValues(rows: seq<AggregatedRow>, key: string): seq<Option<int>>
  {
    if rows == [] then []
    else (if rows[0].key == key then [Some(rows[0].value)] else []) + AggregatedValues(rows[1..], key)
  }

  lemma {:induction false} SumIgnoringNullAppend(a: seq<Option<int>>, b: seq<Option<int>>)
    ensures OrZero(SumIgnoringNull(a + b)) == OrZero(SumIgnoringNull(a)) + OrZero(SumIgnoringNull(b))
  {
    if a != [] {
      assert (a + b)[0] == a[0] && (a + b)[1..] == a[1..] + b;
      SumIgnoringNullAppend(a[1..], b);
    } else {
      assert a + b == b;
    }
  }

  lemma {:induction false} AggregatedValuesSum(rows: seq<AggregatedRow>, key: string)
    ensures OrZero(SumIgnoringNull(AggregatedValues(rows, key))) == AggregatedSum(rows, key)
  {
    if rows != [] {
      AggregatedValuesSum(rows[1..], key);
      SumIgnoringNullAppend(if rows[0].key == key then [Some(rows[0].value)] else [], AggregatedValues(rows[1..], key));
    }
  }

  /** `select sum(Value) from Counter where Key = @key`: NULL when there is no row. */
  function CounterColumn(rows: seq<CounterRow>, key: string): Option<int>
  {
    if exists i :: 0 <= i < |rows| && rows[i].key == key then Some(CounterSum(rows, key)) else None
  }

  /** Read as a number, the Counter column is the Counter sum. */
  lemma CounterColumnSum(rows: seq<CounterRow>, key: string)
    ensures OrZero(CounterColumn(rows, key)) == CounterSum(rows, key)
  {
    if CounterColumn(rows, key).None? {
      Aggregator.CounterSumMissing(rows, key);
    }
  }

  /**
   * The succeeded/deleted query: the outer `sum` over the Counter sum and the
   * aggregated values, read by `ExecuteScalar<int>` (NULL as 0).
   */
  function CounterStatistic(t: Tables, key: string): (r: int)
    ensures r == CounterValue(t, key)
  {
    var column := CounterColumn(t.counters, key);
    CounterColumnSum(t.counters, key);
    SumIgnoringNullAppend([column], AggregatedValues(t.aggregatedCounters, key));
    AggregatedValuesSum(t.aggregatedCounters, key);
    OrZero(SumIgnoringNull([column] + AggregatedValues(t.aggregatedCounters, key)))
  }

  /** A counter's statistic reads the same before and after an aggregation pass. */
  lemma StatisticSurvivesAggregation(t: Tables, key: string)
    ensures CounterStatistic(Aggregator.AggregatePass(t).0, key) == CounterStatistic(t, key)
  {
    Aggregator.PassConserves(t, key);
  }

  datatype Statistics = Statistics(enqueued: nat, failed: nat, processing: nat, scheduled: nat,
                                   servers: nat, succeeded: int, deleted: int, recurring: nat,
                                   queues: nat)

  /** The rows of `Set` under the key `recurring-jobs`, one per recurring job. */
  function RecurringSetRows(sets: seq<SetRow>): seq<SetRow>
  {
    DeleteWhere(sets, (s: SetRow) => s.key != "recurring-jobs")
  }

  /** `GetStatistics`. */
  function GetStatistics(t: Tables, monitors: seq<QueueMonitor>): (r: Statistics)
    ensures r.succeeded == CounterValue(t, "stats:succeeded")
    ensures r.deleted == CounterValue(t, "stats:deleted")
    ensures r.enqueued == |StateJobs(t.jobs, "Enqueued")| && r.failed == |StateJobs(t.jobs, "Failed")|
    ensures r.processing == |StateJobs(t.jobs, "Processing")| && r.scheduled == |StateJobs(t.jobs, "Scheduled")|
    ensures r.servers == |t.servers|
    ensures r.recurring == |RecurringSetRows(t.sets)|
    ensures r.queues == |QueuePairs(monitors)|
  {
    CountComplement(t.sets, (s: SetRow) => s.key == "recurring-jobs", (s: SetRow) => s.key != "recurring-jobs");
    StateJobsCount(t.jobs, "Enqueued");
    StateJobsCount(t.jobs, "Failed");
    StateJobsCount(t.jobs, "Processing");
    StateJobsCount(t.jobs, "Scheduled");
    Statistics(
      CountInState(t.jobs, "Enqueued"),
      CountInState(t.jobs, "Failed"),
      CountInState(t.jobs, "Processing"),
      CountInState(t.jobs, "Scheduled"),
      |t.servers|,
      CounterStatistic(t, "stats:succeeded"),
      CounterStatistic(t, "stats:deleted"),
      CountWhere(t.sets, (s: SetRow) => s.key == "recurring-jobs"),
      TotalQueues(monitors))
  }

  // ---------------------------------------------------------------------
  // Timelines.
  // ---------------------------------------------------------------------

  /**
   * `String.Format("stats:{0}:{1}", type, date)`. A day or an hour is a whole
   * number of units; the decimal number stands in for its formatted text.
   */
  function TimelineKey(kind: string, unit: int): string {
    "stats:" + kind + ":" + IntString(unit)
  }

  lemma TimelineKeyInjective(kind: string, a: int, b: int)
    requires TimelineKey(kind, a) == TimelineKey(kind, b)
    ensures a == b
  {
    var p := "stats:" + kind + ":";
    assert TimelineKey(kind, a)[|p|..] == IntString(a);
    assert TimelineKey(kind, b)[|p|..] == IntString(b);
    IntStringInjective(a, b);
  }

  /** The value a timeline shows for `key`: the aggregated value, or 0 without a row. */
  function TimelineValue(rows: seq<AggregatedRow>, key: string): int
  {
    match Aggregator.AggLookup(rows, key)
    case None => 0
    case Some(row) => row.value
  }

  /**
   * `select Key, Value from AggregatedCounter where Key in @keys`, then
   * `ToDictionary`, which throws on a repeated key.
   */
  function ReadValues(rows: seq<AggregatedRow>, keys: set<string>): Result<map<string, int>>
  {
    if rows == [] then Ok(map[])
    else
      var rest := ReadValues(rows[1..], keys);
      if rest.Err? || rows[0].key !in keys then rest
      else if rows[0].key in rest.value then Err(Argument(None))
      else Ok(rest.value[rows[0].key := rows[0].value])
  }

  /** When the read succeeds, it holds exactly the requested keys that have a row, with their values. */
  lemma {:induction false} ReadValuesLookup(rows: seq<AggregatedRow>, keys: set<string>, k: string)
    requires ReadValues(rows, keys).Ok?
    ensures var m := ReadValues(rows, keys).value;
      (k in m ==> k in keys) &&
      (k in keys ==> (k in m <==> Aggregator.AggLookup(rows, k).Some?)) &&
      (k in m ==> m[k] == TimelineValue(rows, k))
  {
    if rows != [] {
      ReadValuesLookup(rows[1..], keys, k);
    }
  }

  /** The read fails only with `ArgumentException`, and not at all when keys are unique. */
  lemma {:induction false} ReadValuesUnique(rows: seq<AggregatedRow>, keys: set<string>)
    requires Aggregator.UniqueKeys(rows)
    ensures ReadValues(rows, keys).Ok?
  {
    if rows != [] {
      assert Aggregator.UniqueKeys(rows[1..]) by {
        forall a, b | 0 <= a < b < |rows[1..]| ensures rows[1..][a].key != rows[1..][b].key {
          assert rows[1..][a] == rows[a + 1] && rows[1..][b] == rows[b + 1];
        }
      }
      ReadValuesUnique(rows[1..], keys);
      if rows[0].key in keys {
        ReadValuesLookup(rows[1..], keys, rows[0].key);
        if rows[0].key in ReadValues(rows[1..], keys).value {
          NoLaterKey(rows, rows[0].key);
          assert false;
        }
      }
    }
  }

  /** With unique keys, the first row's key appears in no later row. */
  lemma NoLaterKey(rows: seq<AggregatedRow>, key: string)
    requires Aggregator.UniqueKeys(rows) && rows != [] && rows[0].key == key
    ensures Aggregator.AggLookup(rows[1..], key).None?
  {
    assert forall i :: 0 <= i < |rows[1..]| ==> rows[1..][i].key != key by {
      forall i | 0 <= i < |rows[1..]| ensures rows[1..][i].key != key {
        assert rows[1..][i] == rows[i + 1];
      }
    }
    LookupMissing(rows[1..], key);
  }

  lemma {:induction false} LookupMissing(rows: seq<AggregatedRow>, key: string)
    requires forall i :: 0 <= i < |rows| ==> rows[i].key != key
    ensures Aggregator.AggLookup(rows, key).None?
  {
    if rows != [] {
      assert forall i :: 0 <= i < |rows[1..]| ==> rows[1..][i] == rows[i + 1];
      LookupMissing(rows[1..], key);
    }
  }

  lemma {:induction false} ReadValuesErr(rows: seq<AggregatedRow>, keys: set<string>)
    requires ReadValues(rows, keys).Err?
    ensures ReadValues(rows, keys).error == Argument(None)
  {
    if rows != [] && ReadValues(rows[1..], keys).Err? {
      ReadValuesErr(rows[1..], keys);
    }
  }

  /** The `dates` loop: `n` units going back one at a time from `end`. */
  method UnitsBack(end: int, n: nat) returns (dates: seq<int>)
    ensures |dates| == n
    ensures forall j :: 0 <= j < n ==> dates[j] == end - j
  {
    dates := [];
    var endDate := end;
    for i := 0 to n
      invariant |dates| == i && endDate == end - i
      invariant forall j :: 0 <= j < i ==> dates[j] == end - j
    {
      dates := dates + [endDate];
      endDate := endDate - 1;
    }
  }

  /** The zero-fill loop: every key of `keys` missing from `values` is added with 0. */
  method FillZeros(values: map<string, int>, keys: seq<string>) returns (m: map<string, int>)
    ensures forall k :: k in m <==> k in values || k in keys
    ensures forall k :: k in m ==> m[k] == if k in values then values[k] else 0
  {
    m := values;
    for i := 0 to |keys|
      invariant forall k :: k in m <==> k in values || k in keys[..i]
      invariant forall k :: k in m ==> m[k] == if k in values then values[k] else 0
    {
      assert keys[..i + 1] == keys[..i] + [keys[i]];
      if keys[i] !in m {
        m := m[keys[i] := 0];
      }
    }
    assert keys[..|keys|] == keys;
  }

  /** The result loop: unit `dates[j]` gets the value of key `keys[j]`. */
  method Collect(dates: seq<int>, keys: seq<string>, values: map<string, int>, end: int)
    returns (result: map<int, int>)
    requires |dates| == |keys|
    requires forall j :: 0 <= j < |dates| ==> dates[j] == end - j && keys[j] in values
    ensures forall d :: d in result <==> end - |dates| < d <= end
    ensures forall j :: 0 <= j < |dates| ==> result[end - j] == values[keys[j]]
  {
    result := map[];
    for i := 0 to |dates|
      invariant forall d :: d in result <==> end - i < d <= end
      invariant forall j :: 0 <= j < i ==> result[end - j] == values[keys[j]]
    {
      result := result[dates[i] := values[keys[i]]];
    }
  }

  /**
   * `GetTimelineStats(connection, type)` for `n` units ending at `end`: the
   * units `end, end - 1, ...` become keys, the aggregated values are read,
   * missing keys are filled with 0 and each unit gets the value of its key.
   */
  method Timeline(rows: seq<AggregatedRow>, kind: string, end: int, n: nat) returns (r: Result<map<int, int>>)
    ensures Aggregator.UniqueKeys(rows) ==> r.Ok?
    ensures r.Err? ==> r.error == Argument(None)
    ensures r.Ok? ==> forall d :: d in r.value <==> end - n < d <= end
    ensures r.Ok? ==> forall d :: d in r.value ==> r.value[d] == TimelineValue(rows, TimelineKey(kind, d))
  {
    var dates := UnitsBack(end, n);
    // keyMaps, in the dictionary's insertion order.
    var keys: seq<string> := seq(n, j requires 0 <= j < |dates| => TimelineKey(kind, dates[j]));
    var keySet := set j | 0 <= j < n :: keys[j];
    var read := ReadValues(rows, keySet);
    if Aggregator.UniqueKeys(rows) {
      ReadValuesUnique(rows, keySet);
    }
    if read.Err? {
      ReadValuesErr(rows, keySet);
      return Err(read.error);
    }
    var valuesMap := FillZeros(read.value, keys);
    var result := Collect(dates, keys, valuesMap, end);
    forall d | d in result ensures result[d] == TimelineValue(rows, TimelineKey(kind, d)) {
      var j := end - d;
      assert keys[j] == TimelineKey(kind, d) && keys[j] in keySet;
      ReadValuesLookup(rows, keySet, keys[j]);
    }
    return Ok(result);
  }

  // ---------------------------------------------------------------------
  // The API object.
  // ---------------------------------------------------------------------

  datatype QueueSummary = QueueSummary(name: string, length: int, fetched: Option<int>, firstJobs: seq<JobEntry>)

  /** The dashboard row of one (monitor, queue) pair of `Queues()`. */
  function Summary(jobs: seq<JobRow>, monitors: seq<QueueMonitor>, pair: (nat, string)): QueueSummary
    requires pair.0 < |monitors|
  {
    var m := monitors[pair.0];
    var counts := m.counts(pair.1);
    var ids := m.enqueuedJobIds(pair.1, 0, 5);
    QueueSummary(pair.1, OrZero(counts.enqueuedCount), counts.fetchedCount,
                 seq(|JobsWithIds(jobs, ids)|, i requires 0 <= i < |JobsWithIds(jobs, ids)| => Entry(JobsWithIds(jobs, ids)[i])))
  }

  class MySqlMonitoringApi {
    const storage: MySqlStorage
    const storageOptions: MySqlStorageOptions

    constructor (storage: MySqlStorage, storageOptions: MySqlStorageOptions)
      ensures this.storage == storage && this.storageOptions == storageOptions
    {
      this.storage := storage;
      this.storageOptions := storageOptions;
    }

    /** The constructor with its guard: a missing storage is refused. */
    static method New(storage: Option<MySqlStorage>, storageOptions: MySqlStorageOptions)
      returns (r: Result<MySqlMonitoringApi>)
      ensures storage.None? <==> r.Err?
      ensures storage.None? ==> r.error == ArgumentNull("storage")
      ensures r.Ok? ==> r.value.storage == storage.value && r.value.storageOptions == storageOptions
    {
      if storage.None? {
        return Err(ArgumentNull("storage"));
      }
      var api := new MySqlMonitoringApi(storage.value, storageOptions);
      return Ok(api);
    }

    /** `GetQueueApi(queue)`: the monitor of the provider that serves `queue`. */
    method GetQueueApi(queue: string, monitorOf: Provider -> QueueMonitor) returns (m: QueueMonitor)
      ensures m == monitorOf(Resolve(storage.queueProviders.byQueue, storage.queueProviders.defaultProvider, queue))
    {
      var provider := storage.queueProviders.GetProvider(queue);
      m := monitorOf(provider);
    }

    /** `EnqueuedCount(queue)`: the provider's count, 0 when it reports none. */
    method EnqueuedCount(queue: string, monitorOf: Provider -> QueueMonitor) returns (r: int)
      ensures var m := monitorOf(Resolve(storage.queueProviders.byQueue, storage.queueProviders.defaultProvider, queue));
        r == OrZero(m.counts(queue).enqueuedCount)
    {
      var m := GetQueueApi(queue, monitorOf);
      r := OrZero(m.counts(queue).enqueuedCount);
    }

    /** `FetchedCount(queue)`: the provider's count, 0 when it reports none. */
    method FetchedCount(queue: string, monitorOf: Provider -> QueueMonitor) returns (r: int)
      ensures var m := monitorOf(Resolve(storage.queueProviders.byQueue, storage.queueProviders.defaultProvider, queue));
        r == OrZero(m.counts(queue).fetchedCount)
    {
      var m := GetQueueApi(queue, monitorOf);
      r := OrZero(m.counts(queue).fetchedCount);
    }

    /** The private `EnqueuedJobs(connection, jobIds)`: no query when there are no ids. */
    method EnqueuedJobsOf(ids: seq<int>) returns (r: seq<JobEntry>)
      ensures ids == [] ==> r == []
      ensures var js := JobsWithIds(storage.db.tables.jobs, ids);
        |r| == |js| && forall i :: 0 <= i < |js| ==> r[i] == Entry(js[i])
    {
      var jobs: seq<JobRow> := [];
      if ids != [] {
        jobs := JobsWithIds(storage.db.tables.jobs, ids);
      }
      r := DeserializeJobs(jobs);
    }

    /** The public `EnqueuedJobs(queue, from, perPage)`. */
    method EnqueuedJobs(queue: string, from: int, perPage: int, monitorOf: Provider -> QueueMonitor)
      returns (r: seq<JobEntry>)
      ensures var m := monitorOf(Resolve(storage.queueProviders.byQueue, storage.queueProviders.defaultProvider, queue));
        var js := JobsWithIds(storage.db.tables.jobs, m.enqueuedJobIds(queue, from, perPage));
        |r| == |js| && forall i :: 0 <= i < |js| ==> r[i] == Entry(js[i])
    {
      var m := GetQueueApi(queue, monitorOf);
      r := EnqueuedJobsOf(m.enqueuedJobIds(queue, from, perPage));
    }

    /** The `foreach` of `Queues()`: one summary per (monitor, queue) pair, in the order given. */
    method Summaries(monitors: seq<QueueMonitor>, tuples: seq<(nat, string)>) returns (result: seq<QueueSummary>)
      requires forall p :: p in tuples ==> p.0 < |monitors|
      ensures |result| == |tuples|
      ensures forall k :: 0 <= k < |tuples| ==>
        tuples[k].0 < |monitors| && result[k] == Summary(storage.db.tables.jobs, monitors, tuples[k])
    {
      result := [];
      for i := 0 to |tuples|
        invariant |result| == i
        invariant forall k :: 0 <= k < i ==>
          tuples[k].0 < |monitors| && result[k] == Summary(storage.db.tables.jobs, monitors, tuples[k])
      {
        assert tuples[i] in tuples;
        var m := monitors[tuples[i].0];
        var ids := m.enqueuedJobIds(tuples[i].1, 0, 5);
        var counters := m.counts(tuples[i].1);
        var firstJobs := EnqueuedJobsOf(ids);
        result := result + [QueueSummary(tuples[i].1, OrZero(counters.enqueuedCount), counters.fetchedCount, firstJobs)];
      }
    }

    /** `Queues()`: one summary per queue of every provider, in name order. */
    method Queues(monitorOf: Provider -> QueueMonitor) returns (result: seq<QueueSummary>)
      ensures var monitors := MonitorsOf(storage.queueProviders.providers, monitorOf);
        var sorted := SortedQueues(monitors);
        |result| == |sorted| && |result| == TotalQueues(monitors) &&
        forall i :: 0 <= i < |result| ==> (sorted[i].0 < |monitors| &&
          result[i] == Summary(storage.db.tables.jobs, monitors, sorted[i]))
      ensures forall i, j :: 0 <= i < j < |result| ==> OrdinalLe(result[i].name, result[j].name)
    {
      var monitors := MonitorsOf(storage.queueProviders.Enumerate(), monitorOf);
      var tuples := SortedQueues(monitors);
      assert SortedBy<(nat, string)>(tuples, QueueNameLe) && |tuples| == TotalQueues(monitors) &&
             forall p :: p in tuples ==> p.0 < |monitors| by {
        SortedQueuesFacts(monitors);
      }
      result := Summaries(monitors, tuples);
      forall i, j | 0 <= i < j < |result| ensures OrdinalLe(result[i].name, result[j].name) {
        assert QueueNameLe(tuples[i], tuples[j]);
      }
    }

    /** `GetStatistics()`. */
    method Statistics(monitorOf: Provider -> QueueMonitor) returns (r: Statistics)
      ensures r == GetStatistics(storage.db.tables, MonitorsOf(storage.queueProviders.providers, monitorOf))
    {
      r := GetStatistics(storage.db.tables, MonitorsOf(storage.queueProviders.Enumerate(), monitorOf));
    }

    /** `GetNumberOfJobsByStateName`, with `DashboardJobListLimit`. */
    method NumberOfJobsByStateName(stateName: string) returns (r: Result<nat>)
      ensures r == JobCountByState(storage.db.tables.jobs, stateName, storageOptions.dashboardJobListLimit)
    {
      r := JobCountByState(storage.db.tables.jobs, stateName, storageOptions.dashboardJobListLimit);
    }

    /** `GetJobs(from, count, stateName)`. */
    method GetJobs(from: int, count: int, stateName: string) returns (r: seq<JobEntry>)
      ensures var page := JobsPage(storage.db.tables.jobs, stateName, from, count);
        |r| == |page| && forall i :: 0 <= i < |page| ==> r[i] == Entry(page[i])
    {
      var jobs := JobsPage(storage.db.tables.jobs, stateName, from, count);
      r := DeserializeJobs(jobs);
    }

    /** `GetTimelineStats(type)`: the seven days ending on `today`. */
    method DailyTimeline(kind: string, today: int) returns (r: Result<map<int, int>>)
      ensures Aggregator.UniqueKeys(storage.db.tables.aggregatedCounters) ==> r.Ok?
      ensures r.Err? ==> r.error == Argument(None)
      ensures r.Ok? ==> forall d :: d in r.value <==> today - 7 < d <= today
      ensures r.Ok? ==> forall d :: d in r.value ==>
        r.value[d] == TimelineValue(storage.db.tables.aggregatedCounters, TimelineKey(kind, d))
    {
      r := Timeline(storage.db.tables.aggregatedCounters, kind, today, 7);
    }

    /** `GetHourlyTimelineStats(type)`: the 24 hours ending at `hour`. */
    method HourlyTimeline(kind: string, hour: int) returns (r: Result<map<int, int>>)
      ensures Aggregator.UniqueKeys(storage.db.tables.aggregatedCounters) ==> r.Ok?
      ensures r.Err? ==> r.error == Argument(None)
      ensures r.Ok? ==> forall d :: d in r.value <==> hour - 24 < d <= hour
      ensures r.Ok? ==> forall d :: d in r.value ==>
        r.value[d] == TimelineValue(storage.db.tables.aggregatedCounters, TimelineKey(kind, d))
    {
      r := Timeline(storage.db.tables.aggregatedCounters, kind, hour, 24);
    }
  }
}
