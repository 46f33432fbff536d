/**
 * The MySQL job queue. `Dequeue` claims a job by selecting one eligible
 * `JobQueue` row and deleting it inside a transaction that it leaves open;
 * the handle it returns decides, by commit or rollback, whether the delete
 * stays. `Enqueue` appends a row. `FetchedAt` is only ever read.
 */
module JobQueue {
  import opened Wrappers
  import opened Text
  import opened Tables
  import opened StorageOptions
  import opened Storage
  import opened FetchedJobs

  // ---------------------------------------------------------------------
  // The select and the delete of one poll.
  // ---------------------------------------------------------------------

  /**
   * The `where` clause of the select: the row's queue is one of `queues`, and
   * it was never fetched or was fetched before `cutoff`
   * (`UTC_TIMESTAMP() - InvisibilityTimeout`).
   */
  predicate Eligible(row: QueueRow, queues: seq<string>, cutoff: int) {
    row.queue in queues && (row.fetchedAt.None? || row.fetchedAt.value < cutoff)
  }

  /** `select ... limit 1`: the first eligible row in storage order, if any. */
  function FirstEligible(rows: seq<QueueRow>, queues: seq<string>, cutoff: int): (r: Option<nat>)
    ensures r.Some? ==> r.value < |rows| && Eligible(rows[r.value], queues, cutoff) &&
                        forall j :: 0 <= j < r.value ==> !Eligible(rows[j], queues, cutoff)
    ensures r.None? ==> forall j :: 0 <= j < |rows| ==> !Eligible(rows[j], queues, cutoff)
  {
    if rows == [] then None
    else if Eligible(rows[0], queues, cutoff) then Some(0)
    else match FirstEligible(rows[1..], queues, cutoff)
      case None => None
      case Some(i) => Some(i + 1)
  }

  /** `delete from JobQueue where Id = @Id`. */
  function DeleteById(rows: seq<QueueRow>, id: int): seq<QueueRow>
  {
    if rows == [] then []
    else (if rows[0].id == id then [] else [rows[0]]) + DeleteById(rows[1..], id)
  }

  /** The primary key of `JobQueue`: no two rows share an id. */
  predicate UniqueIds(rows: seq<QueueRow>) {
    forall i, j :: 0 <= i < j < |rows| ==> rows[i].id != rows[j].id
  }

  /**
   * Under the primary key, deleting the claimed row's id removes exactly that
   * row: every other row, with its `FetchedAt`, stays, in the same order.
   */
  lemma {:induction false} DeleteByIdRemovesOne(rows: seq<QueueRow>, i: nat)
    requires UniqueIds(rows) && i < |rows|
    ensures DeleteById(rows, rows[i].id) == rows[..i] + rows[i + 1..]
  {
    if i == 0 {
      DeleteByIdAbsent(rows[1..], rows[0].id);
    } else {
      assert UniqueIds(rows[1..]) by {
        forall a, b | 0 <= a < b < |rows[1..]| ensures rows[1..][a].id != rows[1..][b].id {
          assert rows[1..][a] == rows[a + 1] && rows[1..][b] == rows[b + 1];
        }
      }
      assert rows[0].id != rows[i].id;
      DeleteByIdRemovesOne(rows[1..], i - 1);
      assert rows[1..][i - 1] == rows[i];
      assert rows[..i] == [rows[0]] + rows[1..][..i - 1];
      assert rows[i + 1..] == rows[1..][i..];
    }
  }

  /** Deleting an id no row carries leaves the table as it was. */
  lemma {:induction false} DeleteByIdAbsent(rows: seq<QueueRow>, id: int)
    requires forall j :: 0 <= j < |rows| ==> rows[j].id != id
    ensures DeleteById(rows, id) == rows
  {
    if rows != [] {
      DeleteByIdAbsent(rows[1..], id);
    }
  }

  // ---------------------------------------------------------------------
  // The queue-name placeholders of the select.
  // ---------------------------------------------------------------------

  /** `string.Format("@queue{0}", i)`. */
  function Placeholder(i: nat): string {
    "@queue" + Decimal(i)
  }

  lemma PlaceholderInjective(i: nat, j: nat)
    ensures Placeholder(i) == Placeholder(j) ==> i == j
  {
    if Placeholder(i) == Placeholder(j) {
      assert Placeholder(i)[6..] == Decimal(i);
      assert Placeholder(j)[6..] == Decimal(j);
      DecimalInjective(i, j);
    }
  }

  /** `Array.IndexOf(queues, queue)`: the first position holding `queue`. */
  function IndexOf(queues: seq<string>, queue: string): (i: nat)
    requires queue in queues
    ensures i < |queues| && queues[i] == queue
    ensures forall j :: 0 <= j < i ==> queues[j] != queue
  {
    if queues[0] == queue then 0 else IndexOf(queues[1..], queue) + 1
  }

  /** A name met again after its first position: `IndexOf` never points at the later one. */
  lemma DuplicateIsNotFirst(queues: seq<string>, j: nat)
    requires j < |queues| && exists k :: 0 <= k < j && queues[k] == queues[j]
    ensures IndexOf(queues, queues[j]) != j
  {
    var k :| 0 <= k < j && queues[k] == queues[j];
    assert IndexOf(queues, queues[j]) <= k;
  }

  /** No position before `j` holds the name at `j`. */
  predicate IsFirst(queues: seq<string>, j: nat)
    requires j < |queues|
  {
    forall k :: 0 <= k < j ==> queues[k] != queues[j]
  }

  /** Some queue name occurs at two positions. */
  predicate HasRepeat(queues: seq<string>) {
    exists i, j :: 0 <= i < j < |queues| && queues[i] == queues[j]
  }

  /**
   * Slot `j` of the placeholder array once the loop as written has run: it
   * is filled, with `@queue<j>`, exactly when no earlier position holds the
   * same name; otherwise it keeps its initial null.
   */
  function SlotAsWritten(queues: seq<string>, j: nat): (s: Option<string>)
    requires j < |queues|
    ensures s.None? <==> exists k :: 0 <= k < j && queues[k] == queues[j]
    ensures s.Some? ==> s.value == Placeholder(j)
  {
    var at := IndexOf(queues, queues[j]);
    if at == j then Some(Placeholder(j))
    else
      assert at < j && queues[at] == queues[j];
      None
  }

  /** `string.Join` writes a null element as the empty string. */
  function SlotText(s: Option<string>): string {
    if s.Some? then s.value else ""
  }

  /** A slot stays null exactly when a queue name repeats. */
  lemma {:induction false} EmptySlotIffRepeat(queues: seq<string>)
    ensures (exists j :: 0 <= j < |queues| && SlotAsWritten(queues, j).None?) <==> HasRepeat(queues)
  {
    if HasRepeat(queues) {
      var i, j :| 0 <= i < j < |queues| && queues[i] == queues[j];
      assert SlotAsWritten(queues, j).None?;
    }
    if j :| 0 <= j < |queues| && SlotAsWritten(queues, j).None? {
      var k :| 0 <= k < j && queues[k] == queues[j];
      assert 0 <= k < j < |queues| && queues[k] == queues[j];
    }
  }

  /** A position's placeholder is bound twice exactly when a queue name repeats. */
  lemma {:induction false} BoundTwiceIffRepeat(queues: seq<string>)
    ensures (exists i, j :: 0 <= i < j < |queues| && IndexOf(queues, queues[i]) == IndexOf(queues, queues[j]))
            <==> HasRepeat(queues)
  {
    if HasRepeat(queues) {
      var i, j :| 0 <= i < j < |queues| && queues[i] == queues[j];
      assert IndexOf(queues, queues[i]) == IndexOf(queues, queues[j]);
    }
    if i, j :| 0 <= i < j < |queues| && IndexOf(queues, queues[i]) == IndexOf(queues, queues[j]) {
      assert queues[i] == queues[j];
    }
  }

  /**
   * The smallest input on which the placeholder loop goes wrong: with
   * `["default", "default"]` both passes bind `@queue0`, slot 1 stays null,
   * and the list spliced into `Queue in (...)` ends in an empty item.
   */
  lemma DuplicateQueueLeavesEmptySlot()
    ensures var qs := ["default", "default"];
      Placeholder(IndexOf(qs, qs[0])) == "@queue0" && Placeholder(IndexOf(qs, qs[1])) == "@queue0" &&
      SlotAsWritten(qs, 0) == Some("@queue0") && SlotAsWritten(qs, 1) == None &&
      Join(",", [SlotText(SlotAsWritten(qs, 0)), SlotText(SlotAsWritten(qs, 1))]) == "@queue0," &&
      HasRepeat(qs)
  {
    var qs := ["default", "default"];
    assert Decimal(0) == "0";
    assert qs[0] == qs[1];
  }

  /**
   * The placeholder loop as written: for each queue, the slot at
   * `Array.IndexOf(queues, queue)` gets a placeholder, and the placeholder
   * of that position, `@queue<p>`, is bound; `bound` lists those positions in
   * binding order. A slot whose name occurs earlier stays null, and the
   * earlier position's placeholder is bound again; both happen exactly when a
   * name repeats.
   */
  method PlaceholdersAsWritten(queues: seq<string>) returns (parameters: seq<Option<string>>, bound: seq<nat>)
    ensures |parameters| == |queues| && |bound| == |queues|
    ensures forall j :: 0 <= j < |queues| ==> parameters[j] == SlotAsWritten(queues, j)
    ensures forall j :: 0 <= j < |queues| ==> bound[j] == IndexOf(queues, queues[j])
    ensures (exists j :: 0 <= j < |queues| && parameters[j].None?) <==> HasRepeat(queues)
    ensures (exists i, j :: 0 <= i < j < |queues| && bound[i] == bound[j]) <==> HasRepeat(queues)
  {
    var n := |queues|;
    var slots := new Option<string>[n](_ => None);
    bound := [];
    var i := 0;
    while i < n
      invariant 0 <= i <= n && |bound| == i
      invariant forall j :: 0 <= j < n ==> slots[j] == if j < i && IsFirst(queues, j) then Some(Placeholder(j)) else None
      invariant forall j :: 0 <= j < i ==> bound[j] <= j && queues[bound[j]] == queues[j] && IsFirst(queues, bound[j])
    {
      var at := IndexOf(queues, queues[i]);
      assert IsFirst(queues, at) && at <= i && queues[at] == queues[i];
      assert IsFirst(queues, i) <==> at == i;
      slots[at] := Some(Placeholder(at));
      bound := bound + [at];
      i := i + 1;
    }
    parameters := slots[..];
    AsWrittenRepeat(queues, parameters, bound);
  }

  /** The two symptoms of a repeated name, read off the slots and bindings of the loop. */
  lemma AsWrittenRepeat(queues: seq<string>, parameters: seq<Option<string>>, bound: seq<nat>)
    requires |parameters| == |queues| && |bound| == |queues|
    requires forall j :: 0 <= j < |queues| ==> parameters[j] == if IsFirst(queues, j) then Some(Placeholder(j)) else None
    requires forall j :: 0 <= j < |queues| ==> bound[j] <= j && queues[bound[j]] == queues[j] && IsFirst(queues, bound[j])
    ensures forall j :: 0 <= j < |queues| ==> parameters[j] == SlotAsWritten(queues, j)
    ensures forall j :: 0 <= j < |queues| ==> bound[j] == IndexOf(queues, queues[j])
    ensures (exists j :: 0 <= j < |queues| && parameters[j].None?) <==> HasRepeat(queues)
    ensures (exists i, j :: 0 <= i < j < |queues| && bound[i] == bound[j]) <==> HasRepeat(queues)
  {
    forall j | 0 <= j < |queues| ensures parameters[j] == SlotAsWritten(queues, j) {
      assert IsFirst(queues, j) <==> SlotAsWritten(queues, j).Some?;
    }
    forall j | 0 <= j < |queues| ensures bound[j] == IndexOf(queues, queues[j]) {
      var first := IndexOf(queues, queues[j]);
      assert first <= bound[j] && queues[first] == queues[bound[j]];
    }
    EmptySlotIffRepeat(queues);
    BoundTwiceIffRepeat(queues);
  }

  /** The placeholder list the select is meant to carry: one distinct placeholder per position. */
  method Placeholders(queues: seq<string>) returns (parameters: seq<string>)
    ensures |parameters| == |queues|
    ensures forall j :: 0 <= j < |queues| ==> parameters[j] == Placeholder(j)
    ensures forall i, j :: 0 <= i < j < |queues| ==> parameters[i] != parameters[j]
  {
    var n := |queues|;
    var slots := new string[n](_ => "");
    for i := 0 to n
      invariant forall j :: 0 <= j < i ==> slots[j] == Placeholder(j)
    {
      slots[i] := Placeholder(i);
    }
    parameters := slots[..];
    forall i, j | 0 <= i < j < n ensures parameters[i] != parameters[j] {
      PlaceholderInjective(i, j);
    }
  }

  /**
   * The value the command binds to the placeholder named `p`: the queue at
   * the position the name carries, as `AddWithValue(parameters[i], queues[i])`.
   */
  function BoundValue(queues: seq<string>, p: string): Option<string>
  {
    if |p| > 6 && p[..6] == "@queue" && AllDigits(p[6..]) && ParseDecimal(p[6..]) < |queues|
    then Some(queues[ParseDecimal(p[6..])])
    else None
  }

  /**
   * `Queue in (@queue0, ..., @queueN)` over the corrected list holds for a
   * name exactly when the name is one of `queues`.
   */
  lemma PlaceholdersSelectQueues(queues: seq<string>, parameters: seq<string>)
    requires |parameters| == |queues| && forall j :: 0 <= j < |queues| ==> parameters[j] == Placeholder(j)
    ensures forall q :: (exists j :: 0 <= j < |parameters| && BoundValue(queues, parameters[j]) == Some(q)) <==> q in queues
  {
    forall j | 0 <= j < |queues| ensures BoundValue(queues, parameters[j]) == Some(queues[j]) {
      assert parameters[j][..6] == "@queue" && parameters[j][6..] == Decimal(j);
      DecimalRoundTrip(j);
    }
    forall q | q in queues ensures exists j :: 0 <= j < |parameters| && BoundValue(queues, parameters[j]) == Some(q) {
      var j :| 0 <= j < |queues| && queues[j] == q;
      assert BoundValue(queues, parameters[j]) == Some(q);
    }
  }

  // ---------------------------------------------------------------------
  // The polling loop of `Dequeue`, as a function of its inputs.
  // ---------------------------------------------------------------------

  /** How the polling loop ends. */
  datatype PollEnd =
    | ClaimedAt(poll: nat, index: nat)   // poll `poll` selected row `index`
    | CancelledAt(poll: nat)             // the token was cancelled at check `poll`
    | FaultAt(poll: nat)                 // the store failed during poll `poll`
    | Exhausted                          // no claim within the polls the model follows

  /** Poll `p` passes: no cancellation at its check, no store error and nothing eligible. */
  predicate EmptyPoll(rows: seq<QueueRow>, queues: seq<string>, token: CancellationToken, clock: nat -> int,
                      timeout: int, faults: set<nat>, p: nat) {
    !token.IsCancellationRequested(p) && p !in faults && FirstEligible(rows, queues, clock(p) - timeout).None?
  }

  /**
   * The polls from poll `k` on. Poll `k` first observes cancellation check
   * `k` (for `k > 0` this is also the check after the previous empty poll's
   * wait), then selects with the cutoff `clock(k) - timeout`. A poll in
   * `faults` meets a store error. The source polls without bound; the model
   * follows `maxPolls` polls.
   */
  function Polls(rows: seq<QueueRow>, queues: seq<string>, token: CancellationToken, clock: nat -> int,
                 timeout: int, faults: set<nat>, k: nat, maxPolls: nat): (r: PollEnd)
    decreases maxPolls - k
    ensures r.ClaimedAt? ==>
      k <= r.poll < maxPolls && r.index < |rows| &&
      !token.IsCancellationRequested(r.poll) && r.poll !in faults &&
      Eligible(rows[r.index], queues, clock(r.poll) - timeout) &&
      forall j :: 0 <= j < r.index ==> !Eligible(rows[j], queues, clock(r.poll) - timeout)
    ensures r.CancelledAt? ==> k <= r.poll && token.IsCancellationRequested(r.poll)
    ensures r.FaultAt? ==> k <= r.poll < maxPolls && r.poll in faults
  {
    if token.IsCancellationRequested(k) then CancelledAt(k)
    else if k >= maxPolls then Exhausted
    else if k in faults then FaultAt(k)
    else match FirstEligible(rows, queues, clock(k) - timeout)
      case Some(i) => ClaimedAt(k, i)
      case None => Polls(rows, queues, token, clock, timeout, faults, k + 1, maxPolls)
  }

  /**
   * Every poll before the one the loop ends at passes empty, so a claim, a
   * cancellation or a fault happens at the first poll where one can; when
   * the bound is reached, every followed poll passed empty.
   */
  lemma {:induction false} PollsEndAtFirstChance(rows: seq<QueueRow>, queues: seq<string>, token: CancellationToken,
                                                 clock: nat -> int, timeout: int, faults: set<nat>, k: nat, maxPolls: nat)
    decreases maxPolls - k
    ensures var r := Polls(rows, queues, token, clock, timeout, faults, k, maxPolls);
      (r.Exhausted? ==>
        !token.IsCancellationRequested(maxPolls) &&
        forall p :: k <= p < maxPolls ==> EmptyPoll(rows, queues, token, clock, timeout, faults, p)) &&
      (!r.Exhausted? ==> forall p :: k <= p < r.poll ==> EmptyPoll(rows, queues, token, clock, timeout, faults, p))
  {
    if !token.IsCancellationRequested(k) && k < maxPolls && k !in faults &&
       FirstEligible(rows, queues, clock(k) - timeout).None? {
      PollsEndAtFirstChance(rows, queues, token, clock, timeout, faults, k + 1, maxPolls);
    }
  }

  /** A poll with an eligible row, cancellation and faults aside, is where the loop claims. */
  lemma {:induction false} PollsClaimWhenEligible(rows: seq<QueueRow>, queues: seq<string>, clock: nat -> int,
                                                  timeout: int, maxPolls: nat, i: nat)
    requires 0 < maxPolls && i < |rows| && Eligible(rows[i], queues, clock(0) - timeout)
    ensures Polls(rows, queues, CancellationToken(None), clock, timeout, {}, 0, maxPolls).ClaimedAt?
    ensures Polls(rows, queues, CancellationToken(None), clock, timeout, {}, 0, maxPolls).poll == 0
  {
    var f := FirstEligible(rows, queues, clock(0) - timeout);
    assert f.Some?;
  }

  /** With nothing eligible the loop never returns a job: it runs until a cancellation or the poll bound. */
  lemma {:induction false} PollsNeverClaimEmpty(rows: seq<QueueRow>, queues: seq<string>, token: CancellationToken,
                                                clock: nat -> int, timeout: int, faults: set<nat>, k: nat, maxPolls: nat)
    requires forall j :: 0 <= j < |rows| ==> rows[j].queue !in queues
    ensures !Polls(rows, queues, token, clock, timeout, faults, k, maxPolls).ClaimedAt?
  {
  }

  /** `Enqueue`: `insert into JobQueue (JobId, Queue)`; the generated id is the next one. */
  function Enqueue(t: Tables, queue: string, jobId: int): (r: Tables)
    ensures |r.jobQueue| == |t.jobQueue| + 1 && r.jobQueue[..|t.jobQueue|] == t.jobQueue
    ensures var row := r.jobQueue[|t.jobQueue|];
      row.jobId == jobId && row.queue == queue && row.fetchedAt.None? && row.id == t.nextQueueId
    ensures r == t.(jobQueue := r.jobQueue, nextQueueId := t.nextQueueId + 1)
  {
    t.(jobQueue := t.jobQueue + [QueueRow(t.nextQueueId, jobId, queue, None)], nextQueueId := t.nextQueueId + 1)
  }

  /** Every id of the queue table is below the next generated id. */
  predicate IdsBelow(rows: seq<QueueRow>, next: int) {
    forall j :: 0 <= j < |rows| ==> rows[j].id < next
  }

  /** Enqueueing keeps the primary key. */
  lemma EnqueueKeepsIdsUnique(t: Tables, queue: string, jobId: int)
    requires UniqueIds(t.jobQueue) && IdsBelow(t.jobQueue, t.nextQueueId)
    ensures var r := Enqueue(t, queue, jobId); UniqueIds(r.jobQueue) && IdsBelow(r.jobQueue, r.nextQueueId)
  {
    var r := Enqueue(t, queue, jobId);
    forall i, j | 0 <= i < j < |r.jobQueue| ensures r.jobQueue[i].id != r.jobQueue[j].id {
      assert r.jobQueue[i] == t.jobQueue[i];
      if j < |t.jobQueue| { assert r.jobQueue[j] == t.jobQueue[j]; }
    }
  }

  /** A newly enqueued row can be claimed by a dequeue that asks for its queue. */
  lemma EnqueuedIsClaimable(t: Tables, queue: string, jobId: int, queues: seq<string>, cutoff: int)
    requires queue in queues
    ensures FirstEligible(Enqueue(t, queue, jobId).jobQueue, queues, cutoff).Some?
  {
    var rows := Enqueue(t, queue, jobId).jobQueue;
    assert Eligible(rows[|rows| - 1], queues, cutoff);
  }

  // ---------------------------------------------------------------------
  // The queue object.
  // ---------------------------------------------------------------------

  datatype DequeueResult =
    | Claimed(job: FetchedJob)
    | Failed(error: Error)
    | StillPolling   // the source keeps polling; the model stops after its poll bound

  datatype PollStep = Claim(job: FetchedJob) | Fault | Empty

  class MySqlJobQueue {
    const storage: MySqlStorage
    const options: MySqlStorageOptions

    constructor (storage: MySqlStorage, options: MySqlStorageOptions)
      ensures this.storage == storage && this.options == options
    {
      this.storage := storage;
      this.options := options;
    }

    /**
     * One pass of the `do` loop after its cancellation check: open a
     * connection and a transaction, select with `cutoff`, and delete the
     * selected row when its id is positive. A store error (`fault`) disposes
     * the transaction and releases the connection; an empty select rolls
     * back and releases the connection; a claim keeps both for the handle.
     */
    method Poll(queues: seq<string>, cutoff: int, fault: bool) returns (r: PollStep)
      requires storage.Valid()
      modifies storage`connections, storage`nextConnection, storage.db
      ensures storage.Valid()
      ensures !r.Claim? ==> storage.db.tables == old(storage.db.tables) && storage.connections == old(storage.connections)
      ensures var found := FirstEligible(old(storage.db.tables.jobQueue), queues, cutoff);
        (fault <==> r.Fault?) && (!fault && found.None? <==> r.Empty?) &&
        (r.Claim? ==>
          var rows := old(storage.db.tables.jobQueue);
          var row := rows[found.value];
          r.job.jobId == IntString(row.jobId) && r.job.queue == row.queue &&
          storage.db.tables == old(storage.db.tables).(jobQueue := if row.id > 0 then DeleteById(rows, row.id) else rows) &&
          r.job.transaction.snapshot == rows)
      ensures r.Claim? ==>
        fresh(r.job) && fresh(r.job.transaction) && r.job.storage == storage &&
        r.job.transaction.db == storage.db && r.job.transaction.status == Pending &&
        r.job.connection !in old(storage.connections) &&
        storage.connections == old(storage.connections) + {r.job.connection}
    {
      var connection := storage.CreateAndOpenConnection();
      var transaction := new Transaction(storage.db);
      // `Queue in (@queue0, ..., @queueN)` is membership in `queues`, which
      // `Eligible` tests.
      var parameters := Placeholders(queues);
      PlaceholdersSelectQueues(queues, parameters);
      if fault {
        transaction.Dispose();
        storage.ReleaseConnection(connection);
        return Fault;
      }
      var found := FirstEligible(storage.db.tables.jobQueue, queues, cutoff);
      if found.Some? {
        var row := storage.db.tables.jobQueue[found.value];
        if row.id > 0 {
          storage.db.tables := storage.db.tables.(jobQueue := DeleteById(storage.db.tables.jobQueue, row.id));
        }
        var job := new FetchedJob(storage, connection, transaction, IntString(row.jobId), row.queue);
        return Claim(job);
      }
      var _ := transaction.Rollback();
      transaction.Dispose();
      storage.ReleaseConnection(connection);
      r := Empty;
    }

    /**
     * `Dequeue(queues, cancellationToken)`. `clock(k)` is `UTC_TIMESTAMP()`
     * during poll `k`, and the polls in `faults` meet a `MySqlException`.
     * Each poll opens a connection and a transaction; an empty poll rolls
     * back, releases the connection and waits; a store error disposes the
     * transaction, releases the connection and is rethrown; a claim deletes
     * the row when its id is positive and hands connection and open
     * transaction to the returned handle.
     */
    method Dequeue(queues: Option<seq<string>>, token: CancellationToken, clock: nat -> int, faults: set<nat>,
                   maxPolls: nat) returns (r: DequeueResult)
      requires storage.Valid()
      modifies storage`connections, storage`nextConnection, storage.db
      ensures storage.Valid()
      ensures queues.None? ==> r == Failed(ArgumentNull("queues"))
      ensures queues == Some([]) ==> r == Failed(Argument(Some("queues")))
      ensures !r.Claimed? ==> storage.db.tables == old(storage.db.tables) && storage.connections == old(storage.connections)
      ensures queues.Some? && queues.value != [] ==>
        var rows := old(storage.db.tables.jobQueue);
        var end := Polls(rows, queues.value, token, clock, options.invisibilityTimeout, faults, 0, maxPolls);
        (end.CancelledAt? <==> r == Failed(OperationCanceled)) &&
        (end.FaultAt? <==> r == Failed(StoreError)) &&
        (end.Exhausted? <==> r == StillPolling) &&
        (end.ClaimedAt? <==> r.Claimed?) &&
        (r.Claimed? ==>
          var row := rows[end.index];
          r.job.jobId == IntString(row.jobId) && r.job.queue == row.queue &&
          storage.db.tables == old(storage.db.tables).(jobQueue := if row.id > 0 then DeleteById(rows, row.id) else rows) &&
          r.job.transaction.snapshot == rows)
      ensures r.Claimed? ==>
        fresh(r.job) && fresh(r.job.transaction) && r.job.storage == storage &&
        r.job.transaction.db == storage.db && r.job.transaction.status == Pending &&
        r.job.connection !in old(storage.connections) &&
        storage.connections == old(storage.connections) + {r.job.connection}
    {
      if queues.None? {
        return Failed(ArgumentNull("queues"));
      }
      if queues.value == [] {
        return Failed(Argument(Some("queues")));
      }
      var qs := queues.value;
      ghost var rows := storage.db.tables.jobQueue;
      var timeout := options.invisibilityTimeout;
      var k: nat := 0;
      while true
        invariant k <= maxPolls
        invariant storage.Valid()
        invariant storage.db.tables == old(storage.db.tables) && storage.connections == old(storage.connections)
        invariant Polls(rows, qs, token, clock, timeout, faults, 0, maxPolls)
               == Polls(rows, qs, token, clock, timeout, faults, k, maxPolls)
        decreases maxPolls - k
      {
        if token.IsCancellationRequested(k) {
          return Failed(OperationCanceled);
        }
        if k >= maxPolls {
          return StillPolling;
        }
        ghost var found := FirstEligible(rows, qs, clock(k) - timeout);
        var step := Poll(qs, clock(k) - timeout, k in faults);
        match step {
          case Claim(job) =>
            assert Polls(rows, qs, token, clock, timeout, faults, k, maxPolls) == ClaimedAt(k, found.value);
            return Claimed(job);
          case Fault =>
            assert Polls(rows, qs, token, clock, timeout, faults, k, maxPolls) == FaultAt(k);
            return Failed(StoreError);
          case Empty =>
            assert Polls(rows, qs, token, clock, timeout, faults, k, maxPolls)
                == Polls(rows, qs, token, clock, timeout, faults, k + 1, maxPolls);
        }
        k := k + 1;
      }
    }
  }
}
