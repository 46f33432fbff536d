/**
 * The write-only transaction: every mutator only appends a command to a FIFO
 * queue (and, for Set, List and Hash operations, records a lock name);
 * `Commit` replays the queue, in order, inside one database transaction.
 * A command is the meaning of the SQL statement the mutator prepares, with
 * its parameters already bound; `Execute` is that statement run against the
 * tables.
 */
module WriteOnly {
  import opened Wrappers
  import opened Tables
  import opened Storage
  import JobQueue

  datatype Command =
    /** `update Job set ExpireAt = @expireAt where Id = @id` (NULL for `PersistJob`). */
    | SetJobExpiration(jobId: int, expireAt: Option<int>)
    /**
     * `insert into State ...`, and with `makeCurrent` also
     * `update Job set StateId = last_insert_id(), StateName = @name where Id = @id`.
     */
    | InsertState(jobId: int, name: string, reason: Option<string>, createdAt: int, data: string, makeCurrent: bool)
    /** The command the job queue's `Enqueue` prepares. */
    | EnqueueJob(queue: string, jobId: int)
    /** `insert into Counter (Key, Value[, ExpireAt]) ...`. */
    | InsertCounter(key: string, delta: int, expireAt: Option<int>)
    /** `insert into Set ... on duplicate key update Score = @Score`. */
    | UpsertSetMember(key: string, value: string, score: int)
    /** `delete from Set where Key = @key and Value = @value`. */
    | DeleteSetMember(key: string, value: string)
    /** `insert into List (Key, Value) ...`. */
    | InsertListItem(key: string, value: string)
    /** `delete from List where Key = @key and Value = @value`. */
    | DeleteListItem(key: string, value: string)
    /** `insert into Hash ... on duplicate key update Value = @value`. */
    | UpsertHashField(key: string, field: string, value: string)
    /** `delete from Hash where Key = @key`. */
    | DeleteHash(key: string)

  /** The state a job moves to: its name, reason and serialized data. */
  datatype JobState = JobState(name: string, reason: Option<string>, data: string)

  const SetLock := "Hangfire:Set:Lock"
  const ListLock := "Hangfire:List:Lock"
  const HashLock := "Hangfire:Hash:Lock"

  // ---------------------------------------------------------------------
  // The statements.
  // ---------------------------------------------------------------------

  function SetJobExpireAt(rows: seq<JobRow>, jobId: int, expireAt: Option<int>): seq<JobRow>
  {
    seq(|rows|, i requires 0 <= i < |rows| => if rows[i].id == jobId then rows[i].(expireAt := expireAt) else rows[i])
  }

  function SetCurrentState(rows: seq<JobRow>, jobId: int, stateId: int, name: string): seq<JobRow>
  {
    seq(|rows|, i requires 0 <= i < |rows| =>
      if rows[i].id == jobId then rows[i].(stateId := Some(stateId), stateName := Some(name)) else rows[i])
  }

  /** The Set table's unique key is (Key, Value). */
  predicate UniqueSetMembers(rows: seq<SetRow>) {
    forall i, j :: 0 <= i < j < |rows| ==> rows[i].key != rows[j].key || rows[i].value != rows[j].value
  }

  predicate HasMember(rows: seq<SetRow>, key: string, value: string) {
    exists i :: 0 <= i < |rows| && rows[i].key == key && rows[i].value == value
  }

  /** The upsert: an existing member only gets the new score; a new member is appended with score and no expiry. */
  function UpsertSet(rows: seq<SetRow>, key: string, value: string, score: int): seq<SetRow>
  {
    if HasMember(rows, key, value) then
      seq(|rows|, i requires 0 <= i < |rows| =>
        if rows[i].key == key && rows[i].value == value then rows[i].(score := score) else rows[i])
    else rows + [SetRow(key, value, score, None)]
  }

  function Execute(t: Tables, c: Command): Tables
  {
    match c
    case SetJobExpiration(jobId, expireAt) => t.(jobs := SetJobExpireAt(t.jobs, jobId, expireAt))
    case InsertState(jobId, name, reason, createdAt, data, makeCurrent) =>
      var id := t.nextStateId;
      var inserted := t.(states := t.states + [StateRow(id, jobId, name, reason, createdAt, data)], nextStateId := id + 1);
      if makeCurrent then inserted.(jobs := SetCurrentState(t.jobs, jobId, id, name)) else inserted
    case EnqueueJob(queue, jobId) => JobQueue.Enqueue(t, queue, jobId)
    case InsertCounter(key, value, expireAt) => t.(counters := t.counters + [CounterRow(key, value, expireAt)])
    case UpsertSetMember(key, value, score) => t.(sets := UpsertSet(t.sets, key, value, score))
    case DeleteSetMember(key, value) => t.(sets := DeleteWhere(t.sets, (r: SetRow) => r.key == key && r.value == value))
    case InsertListItem(key, value) => t.(lists := t.lists + [ListRow(key, value, None)])
    case DeleteListItem(key, value) => t.(lists := DeleteWhere(t.lists, (r: ListRow) => r.key == key && r.value == value))
    case UpsertHashField(key, field, value) => t.(hashes := UpsertHash(t.hashes, key, field, value))
    case DeleteHash(key) => t.(hashes := DeleteWhere(t.hashes, (r: HashRow) => r.key == key))
  }

  /** The commands run one after another, first queued first. */
  function ExecuteAll(t: Tables, cmds: seq<Command>): Tables
  {
    if cmds == [] then t else Execute(ExecuteAll(t, cmds[..|cmds| - 1]), cmds[|cmds| - 1])
  }

  /** The upserts `SetRangeInHash` queues, one per pair, in the pairs' order. */
  function HashCommands(key: string, pairs: seq<(string, string)>): (r: seq<Command>)
    ensures |r| == |pairs|
  {
    seq(|pairs|, i requires 0 <= i < |pairs| => UpsertHashField(key, pairs[i].0, pairs[i].1))
  }

  /** The value of the last pair for `field`, if any pair names it. */
  function LastValue(pairs: seq<(string, string)>, field: string): Option<string>
  {
    if pairs == [] then None
    else if pairs[|pairs| - 1].0 == field then Some(pairs[|pairs| - 1].1)
    else LastValue(pairs[..|pairs| - 1], field)
  }

  // ---------------------------------------------------------------------
  // What the statements do.
  // ---------------------------------------------------------------------

  /** Replaying a queue in two parts is replaying it whole: the order is the queue's. */
  lemma {:induction false} ExecuteAllAppend(t: Tables, a: seq<Command>, b: seq<Command>)
    ensures ExecuteAll(t, a + b) == ExecuteAll(ExecuteAll(t, a), b)
  {
    if b == [] {
      assert a + b == a;
    } else {
      assert (a + b)[..|a + b| - 1] == a + b[..|b| - 1];
      ExecuteAllAppend(t, a, b[..|b| - 1]);
    }
  }

  /** A Counter insert moves the logical value of its key by its value and no other key. */
  lemma CounterInsertValue(t: Tables, key: string, value: int, expireAt: Option<int>, k: string)
    ensures CounterValue(Execute(t, InsertCounter(key, value, expireAt)), k)
         == CounterValue(t, k) + (if k == key then value else 0)
  {
    CounterSumAppend(t.counters, [CounterRow(key, value, expireAt)], k);
  }

  /** An increment followed by a decrement of the same key leaves every counter where it was. */
  lemma IncrementThenDecrement(t: Tables, key: string, e1: Option<int>, e2: Option<int>, k: string)
    ensures CounterValue(ExecuteAll(t, [InsertCounter(key, 1, e1), InsertCounter(key, -1, e2)]), k) == CounterValue(t, k)
  {
    var cmds := [InsertCounter(key, 1, e1), InsertCounter(key, -1, e2)];
    assert cmds[..1][..0] == [] && cmds[..1][0] == cmds[0] && cmds[..2 - 1] == cmds[..1];
    var t1 := Execute(t, cmds[0]);
    assert ExecuteAll(t, cmds[..1]) == t1;
    assert ExecuteAll(t, cmds) == Execute(t1, cmds[1]);
    CounterInsertValue(t, key, 1, e1, k);
    CounterInsertValue(t1, key, -1, e2, k);
  }

  /**
   * `ExpireJob` / `PersistJob`: the rows of the named job get the new
   * expiry, every other row and every other table is unchanged.
   */
  lemma ExpirationTouchesOnlyTheJob(t: Tables, jobId: int, expireAt: Option<int>)
    ensures var r := Execute(t, SetJobExpiration(jobId, expireAt));
      r == t.(jobs := r.jobs) && |r.jobs| == |t.jobs| &&
      forall i :: 0 <= i < |t.jobs| ==>
        (t.jobs[i].id == jobId ==> r.jobs[i] == t.jobs[i].(expireAt := expireAt)) &&
        (t.jobs[i].id != jobId ==> r.jobs[i] == t.jobs[i])
  {
  }

  /**
   * `SetJobState` and `AddJobState` insert the same State row, with the next
   * generated id; only `SetJobState` then points the job at it.
   */
  lemma SetStateVersusAddState(t: Tables, jobId: int, name: string, reason: Option<string>, createdAt: int, data: string)
    ensures var setState := Execute(t, InsertState(jobId, name, reason, createdAt, data, true));
            var addState := Execute(t, InsertState(jobId, name, reason, createdAt, data, false));
      var row := StateRow(t.nextStateId, jobId, name, reason, createdAt, data);
      addState == t.(states := t.states + [row], nextStateId := t.nextStateId + 1) &&
      setState == addState.(jobs := setState.jobs) && |setState.jobs| == |t.jobs| &&
      forall i :: 0 <= i < |t.jobs| ==>
        (t.jobs[i].id == jobId ==> setState.jobs[i].stateId == Some(row.id) && setState.jobs[i].stateName == Some(name) &&
                                   setState.jobs[i] == t.jobs[i].(stateId := setState.jobs[i].stateId, stateName := setState.jobs[i].stateName)) &&
        (t.jobs[i].id != jobId ==> setState.jobs[i] == t.jobs[i])
  {
  }

  /**
   * `AddToSet`: the member ends up with exactly the given score; an existing
   * member keeps its position and expiry and changes nothing else, a new one
   * is one more row.
   */
  lemma UpsertSetResult(rows: seq<SetRow>, key: string, value: string, score: int)
    requires UniqueSetMembers(rows)
    ensures var r := UpsertSet(rows, key, value, score);
      UniqueSetMembers(r) && HasMember(r, key, value) &&
      (forall i :: 0 <= i < |r| && r[i].key == key && r[i].value == value ==> r[i].score == score) &&
      (HasMember(rows, key, value) ==>
        |r| == |rows| &&
        forall i :: 0 <= i < |rows| ==>
          r[i] == if rows[i].key == key && rows[i].value == value then rows[i].(score := score) else rows[i]) &&
      (!HasMember(rows, key, value) ==> r == rows + [SetRow(key, value, score, None)])
  {
    var r := UpsertSet(rows, key, value, score);
    if !HasMember(rows, key, value) {
      assert r[|rows|].key == key && r[|rows|].value == value;
      forall i, j | 0 <= i < j < |r| ensures r[i].key != r[j].key || r[i].value != r[j].value {
        if j == |rows| {
          assert r[i] == rows[i];
        }
      }
    } else {
      var w :| 0 <= w < |rows| && rows[w].key == key && rows[w].value == value;
      assert r[w].key == key && r[w].value == value;
    }
  }

  /** Every command keeps the unique keys of the Set and Hash tables. */
  lemma ExecuteKeepsUnique(t: Tables, c: Command)
    requires UniqueSetMembers(t.sets) && UniqueHashFields(t.hashes)
    ensures var r := Execute(t, c); UniqueSetMembers(r.sets) && UniqueHashFields(r.hashes)
  {
    match c
    case UpsertSetMember(key, value, score) =>
      UpsertSetResult(t.sets, key, value, score);
    case DeleteSetMember(key, value) =>
      var doomed := (r: SetRow) => r.key == key && r.value == value;
      var s := DeleteWhere(t.sets, doomed);
      forall i, j | 0 <= i < j < |s| ensures s[i].key != s[j].key || s[i].value != s[j].value {
        DeleteWhereKeepsOrder(t.sets, doomed, i, j);
      }
    case UpsertHashField(key, field, value) =>
      UpsertHashUnique(t.hashes, key, field, value);
    case DeleteHash(key) =>
      DeleteHashRowsUnique(t.hashes, (r: HashRow) => r.key == key);
    case _ =>
  }

  /** So does every committed queue. */
  lemma {:induction false} ExecuteAllKeepsUnique(t: Tables, cmds: seq<Command>)
    requires UniqueSetMembers(t.sets) && UniqueHashFields(t.hashes)
    ensures var r := ExecuteAll(t, cmds); UniqueSetMembers(r.sets) && UniqueHashFields(r.hashes)
  {
    if cmds != [] {
      ExecuteAllKeepsUnique(t, cmds[..|cmds| - 1]);
      ExecuteKeepsUnique(ExecuteAll(t, cmds[..|cmds| - 1]), cmds[|cmds| - 1]);
    }
  }

  /**
   * `SetRangeInHash` committed: a field named by some pair holds the value
   * of the last such pair; every other field, of this hash or any other, is
   * as before.
   */
  lemma {:induction false} HashRangeLastPairWins(t: Tables, key: string, pairs: seq<(string, string)>, k: string, f: string)
    ensures HashLookup(ExecuteAll(t, HashCommands(key, pairs)).hashes, k, f)
         == if k == key && LastValue(pairs, f).Some? then LastValue(pairs, f) else HashLookup(t.hashes, k, f)
  {
    if pairs != [] {
      var n := |pairs| - 1;
      var cmds := HashCommands(key, pairs);
      assert cmds[..n] == HashCommands(key, pairs[..n]);
      HashRangeLastPairWins(t, key, pairs[..n], k, f);
      UpsertHashLookup(ExecuteAll(t, cmds[..n]).hashes, key, pairs[n].0, pairs[n].1, k, f);
    }
  }

  /** `RemoveHash` committed: the hash has no field left; other hashes are untouched. */
  lemma RemoveHashEmpties(t: Tables, key: string, k: string, f: string)
    ensures HashLookup(Execute(t, DeleteHash(key)).hashes, k, f) == if k == key then None else HashLookup(t.hashes, k, f)
  {
    DeleteHashLookup(t.hashes, key, k, f);
  }

  // ---------------------------------------------------------------------
  // The transaction object.
  // ---------------------------------------------------------------------

  /**
   * `MySqlWriteOnlyTransaction`: mutators only touch `commandQueue` and
   * `lockedResources` (their frames do not include the store); `Commit` is
   * the only member that writes the tables.
   */
  class WriteOnlyTransaction {
    const storage: MySqlStorage
    var commandQueue: seq<Command>
    var lockedResources: set<string>

    ghost predicate Valid()
      reads this
    {
      lockedResources <= {SetLock, ListLock, HashLock}
    }

    constructor (storage: MySqlStorage)
      ensures Valid() && this.storage == storage && commandQueue == [] && lockedResources == {}
    {
      this.storage := storage;
      commandQueue := [];
      lockedResources := {};
    }

    /** `QueueCommand`: the command joins the end of the queue. */
    method QueueCommand(c: Command)
      modifies this`commandQueue
      ensures commandQueue == old(commandQueue) + [c]
    {
      commandQueue := commandQueue + [c];
    }

    /** `AcquireLock`: the resource name is recorded once, however often it is acquired. */
    method AcquireLock(resource: string)
      modifies this`lockedResources
      ensures lockedResources == old(lockedResources) + {resource}
    {
      lockedResources := lockedResources + {resource};
    }

    method ExpireJob(jobId: int, expireIn: int, now: int)
      modifies this`commandQueue
      ensures commandQueue == old(commandQueue) + [SetJobExpiration(jobId, Some(now + expireIn))]
    {
      QueueCommand(SetJobExpiration(jobId, Some(now + expireIn)));
    }

    method PersistJob(jobId: int)
      modifies this`commandQueue
      ensures commandQueue == old(commandQueue) + [SetJobExpiration(jobId, None)]
    {
      QueueCommand(SetJobExpiration(jobId, None));
    }

    method SetJobState(jobId: int, state: JobState, now: int)
      modifies this`commandQueue
      ensures commandQueue == old(commandQueue) + [InsertState(jobId, state.name, state.reason, now, state.data, true)]
    {
      QueueCommand(InsertState(jobId, state.name, state.reason, now, state.data, true));
    }

    method AddJobState(jobId: int, state: JobState, now: int)
      modifies this`commandQueue
      ensures commandQueue == old(commandQueue) + [InsertState(jobId, state.name, state.reason, now, state.data, false)]
    {
      QueueCommand(InsertState(jobId, state.name, state.reason, now, state.data, false));
    }

    method AddToQueue(queue: string, jobId: int)
      modifies this`commandQueue
      ensures commandQueue == old(commandQueue) + [EnqueueJob(queue, jobId)]
    {
      QueueCommand(EnqueueJob(queue, jobId));
    }

    method IncrementCounter(key: string)
      modifies this`commandQueue
      ensures commandQueue == old(commandQueue) + [InsertCounter(key, 1, None)]
    {
      QueueCommand(InsertCounter(key, 1, None));
    }

    /** The overload with `expireIn`. */
    method IncrementCounterExpiring(key: string, expireIn: int, now: int)
      modifies this`commandQueue
      ensures commandQueue == old(commandQueue) + [InsertCounter(key, 1, Some(now + expireIn))]
    {
      QueueCommand(InsertCounter(key, 1, Some(now + expireIn)));
    }

    method DecrementCounter(key: string)
      modifies this`commandQueue
      ensures commandQueue == old(commandQueue) + [InsertCounter(key, -1, None)]
    {
      QueueCommand(InsertCounter(key, -1, None));
    }

    /** The overload with `expireIn`. */
    method DecrementCounterExpiring(key: string, expireIn: int, now: int)
      modifies this`commandQueue
      ensures commandQueue == old(commandQueue) + [InsertCounter(key, -1, Some(now + expireIn))]
    {
      QueueCommand(InsertCounter(key, -1, Some(now + expireIn)));
    }

    /** `AddToSet(key, value)`: score 0. */
    method AddToSet(key: string, value: string)
      requires Valid()
      modifies this
      ensures Valid()
      ensures commandQueue == old(commandQueue) + [UpsertSetMember(key, value, 0)]
      ensures lockedResources == old(lockedResources) + {SetLock}
    {
      AddToSetWithScore(key, value, 0);
    }

    /** `AddToSet(key, value, score)`. */
    method AddToSetWithScore(key: string, value: string, score: int)
      requires Valid()
      modifies this
      ensures Valid()
      ensures commandQueue == old(commandQueue) + [UpsertSetMember(key, value, score)]
      ensures lockedResources == old(lockedResources) + {SetLock}
    {
      AcquireLock(SetLock);
      QueueCommand(UpsertSetMember(key, value, score));
    }

    method RemoveFromSet(key: string, value: string)
      requires Valid()
      modifies this
      ensures Valid()
      ensures commandQueue == old(commandQueue) + [DeleteSetMember(key, value)]
      ensures lockedResources == old(lockedResources) + {SetLock}
    {
      AcquireLock(SetLock);
      QueueCommand(DeleteSetMember(key, value));
    }

    method InsertToList(key: string, value: string)
      requires Valid()
      modifies this
      ensures Valid()
      ensures commandQueue == old(commandQueue) + [InsertListItem(key, value)]
      ensures lockedResources == old(lockedResources) + {ListLock}
    {
      AcquireLock(ListLock);
      QueueCommand(InsertListItem(key, value));
    }

    method RemoveFromList(key: string, value: string)
      requires Valid()
      modifies this
      ensures Valid()
      ensures commandQueue == old(commandQueue) + [DeleteListItem(key, value)]
      ensures lockedResources == old(lockedResources) + {ListLock}
    {
      AcquireLock(ListLock);
      QueueCommand(DeleteListItem(key, value));
    }

    /**
     * `SetRangeInHash`: a null key or a null pair list throws before any lock
     * is recorded or command queued; otherwise one upsert per pair, in order.
     */
    method SetRangeInHash(key: Option<string>, pairs: Option<seq<(string, string)>>) returns (r: Outcome)
      requires Valid()
      modifies this
      ensures Valid()
      ensures key.None? ==> r == Fail(ArgumentNull("key"))
      ensures key.Some? && pairs.None? ==> r == Fail(ArgumentNull("keyValuePairs"))
      ensures r.Fail? ==> commandQueue == old(commandQueue) && lockedResources == old(lockedResources)
      ensures key.Some? && pairs.Some? ==>
        r == Pass && commandQueue == old(commandQueue) + HashCommands(key.value, pairs.value) &&
        lockedResources == old(lockedResources) + {HashLock}
    {
      if key.None? { return Fail(ArgumentNull("key")); }
      if pairs.None? { return Fail(ArgumentNull("keyValuePairs")); }
      AcquireLock(HashLock);
      var ps := pairs.value;
      var i := 0;
      while i < |ps|
        invariant 0 <= i <= |ps|
        invariant commandQueue == old(commandQueue) + HashCommands(key.value, ps[..i])
        invariant lockedResources == old(lockedResources) + {HashLock}
      {
        QueueCommand(UpsertHashField(key.value, ps[i].0, ps[i].1));
        assert HashCommands(key.value, ps[..i + 1]) == HashCommands(key.value, ps[..i]) + [UpsertHashField(key.value, ps[i].0, ps[i].1)];
        i := i + 1;
      }
      assert ps[..i] == ps;
      r := Pass;
    }

    /** `RemoveHash`: a null key throws before anything is recorded. */
    method RemoveHash(key: Option<string>) returns (r: Outcome)
      requires Valid()
      modifies this
      ensures Valid()
      ensures key.None? ==> r == Fail(ArgumentNull("key")) &&
                            commandQueue == old(commandQueue) && lockedResources == old(lockedResources)
      ensures key.Some? ==> r == Pass && commandQueue == old(commandQueue) + [DeleteHash(key.value)] &&
                            lockedResources == old(lockedResources) + {HashLock}
    {
      if key.None? { return Fail(ArgumentNull("key")); }
      AcquireLock(HashLock);
      QueueCommand(DeleteHash(key.value));
      r := Pass;
    }

    /**
     * `Commit`: one connection in one transaction runs the queued commands in
     * FIFO order. `failAt` is the position of a command the server rejects,
     * if any: the exception leaves the transaction scope incomplete, so the
     * tables are rolled back to what they were and the error is rethrown.
     * The connection is released either way.
     */
    method Commit(failAt: Option<nat>) returns (r: Outcome)
      requires storage.Valid()
      modifies storage.db, storage`connections, storage`nextConnection
      ensures storage.Valid() && storage.connections == old(storage.connections)
      ensures (failAt.None? || failAt.value >= |commandQueue|) ==>
        r == Pass && storage.db.tables == ExecuteAll(old(storage.db.tables), commandQueue)
      ensures (failAt.Some? && failAt.value < |commandQueue|) ==>
        r == Fail(StoreError) && storage.db.tables == old(storage.db.tables)
    {
      var c := storage.CreateAndOpenConnection();
      var before := storage.db.tables;
      var cmds := commandQueue;
      r := Pass;
      var i := 0;
      while i < |cmds|
        invariant 0 <= i <= |cmds|
        invariant storage.Valid() && storage.connections == old(storage.connections) + {c}
        invariant storage.db.tables == ExecuteAll(before, cmds[..i])
        invariant failAt.Some? ==> i <= failAt.value
      {
        if failAt == Some(i) {
          storage.db.tables := before;
          r := Fail(StoreError);
          break;
        }
        assert cmds[..i + 1][..i] == cmds[..i];
        storage.db.tables := Execute(storage.db.tables, cmds[i]);
        i := i + 1;
      }
      if r.Pass? {
        assert cmds[..i] == cmds;
      }
      storage.ReleaseConnection(c);
    }

    /** `Dispose` does nothing. */
    method Dispose()
    {
    }
  }
}
