/**
 * A claimed job: the handle `Dequeue` returns. It owns the connection and
 * the still-open transaction in which the claimed `JobQueue` row was
 * deleted; committing makes the delete permanent, rolling back (explicitly
 * or by disposing an uncommitted transaction) brings the row back.
 */
module FetchedJobs {
  import opened Wrappers
  import opened Tables
  import opened Storage

  datatype TxStatus = Pending | Committed | RolledBack

  /**
   * A database transaction on the `JobQueue` table. `snapshot` is the table
   * as it was when the transaction began; rolling back restores it.
   */
  class Transaction {
    const db: Database
    const snapshot: seq<QueueRow>
    var status: TxStatus

    /** `BeginTransaction` on a connection to `db`. */
    constructor (db: Database)
      ensures this.db == db && snapshot == db.tables.jobQueue && status == Pending
    {
      this.db := db;
      snapshot := db.tables.jobQueue;
      status := Pending;
    }

    /** `Commit`: only a pending transaction can commit; otherwise `InvalidOperationException`. */
    method Commit() returns (r: Outcome)
      modifies this
      ensures old(status) == Pending ==> r == Pass && status == Committed
      ensures old(status) != Pending ==> r == Fail(InvalidOperation) && status == old(status)
    {
      if status != Pending {
        return Fail(InvalidOperation);
      }
      status := Committed;
      r := Pass;
    }

    /** `Rollback`: a pending transaction restores the table; otherwise `InvalidOperationException`. */
    method Rollback() returns (r: Outcome)
      modifies this, db
      ensures old(status) == Pending ==> r == Pass && status == RolledBack &&
                                         db.tables == old(db.tables).(jobQueue := snapshot)
      ensures old(status) != Pending ==> r == Fail(InvalidOperation) && status == old(status) &&
                                         db.tables == old(db.tables)
    {
      if status != Pending {
        return Fail(InvalidOperation);
      }
      db.tables := db.tables.(jobQueue := snapshot);
      status := RolledBack;
      r := Pass;
    }

    /** `Dispose`: a transaction still pending is rolled back; otherwise nothing happens. */
    method Dispose()
      modifies this, db
      ensures old(status) == Pending ==> status == RolledBack && db.tables == old(db.tables).(jobQueue := snapshot)
      ensures old(status) != Pending ==> status == old(status) && db.tables == old(db.tables)
    {
      if status == Pending {
        db.tables := db.tables.(jobQueue := snapshot);
        status := RolledBack;
      }
    }
  }

  class FetchedJob {
    const storage: MySqlStorage
    const connection: nat
    const transaction: Transaction
    /** The claimed job's id, as the decimal string the handle exposes. */
    const jobId: string
    const queue: string

    constructor (storage: MySqlStorage, connection: nat, transaction: Transaction, jobId: string, queue: string)
      ensures this.storage == storage && this.connection == connection && this.transaction == transaction
      ensures this.jobId == jobId && this.queue == queue
    {
      this.storage := storage;
      this.connection := connection;
      this.transaction := transaction;
      this.jobId := jobId;
      this.queue := queue;
    }

    /**
     * The constructor with its guards: storage, connection, transaction, job
     * id and queue must be present, checked in that order.
     */
    static method New(storage: Option<MySqlStorage>, connection: Option<nat>, transaction: Option<Transaction>,
                      jobId: Option<string>, queue: Option<string>) returns (r: Result<FetchedJob>)
      ensures storage.None? ==> r == Err(ArgumentNull("storage"))
      ensures storage.Some? && connection.None? ==> r == Err(ArgumentNull("connection"))
      ensures storage.Some? && connection.Some? && transaction.None? ==> r == Err(ArgumentNull("transaction"))
      ensures storage.Some? && connection.Some? && transaction.Some? && jobId.None? ==> r == Err(ArgumentNull("jobId"))
      ensures storage.Some? && connection.Some? && transaction.Some? && jobId.Some? && queue.None? ==>
                r == Err(ArgumentNull("queue"))
      ensures r.Ok? ==> storage.Some? && connection.Some? && transaction.Some? && jobId.Some? && queue.Some? &&
                        fresh(r.value) && r.value.storage == storage.value && r.value.connection == connection.value &&
                        r.value.transaction == transaction.value &&
                        r.value.jobId == jobId.value && r.value.queue == queue.value
    {
      if storage.None? { return Err(ArgumentNull("storage")); }
      if connection.None? { return Err(ArgumentNull("connection")); }
      if transaction.None? { return Err(ArgumentNull("transaction")); }
      if jobId.None? { return Err(ArgumentNull("jobId")); }
      if queue.None? { return Err(ArgumentNull("queue")); }
      var job := new FetchedJob(storage.value, connection.value, transaction.value, jobId.value, queue.value);
      return Ok(job);
    }

    /** `RemoveFromQueue`: commits, so the delete made by `Dequeue` stays. */
    method RemoveFromQueue() returns (r: Outcome)
      modifies transaction
      ensures old(transaction.status) == Pending ==> r == Pass && transaction.status == Committed
      ensures old(transaction.status) != Pending ==>
        r == Fail(InvalidOperation) && transaction.status == old(transaction.status)
    {
      r := transaction.Commit();
    }

    /** `Requeue`: rolls back, so the deleted row is back and the queue table is as before. */
    method Requeue() returns (r: Outcome)
      modifies transaction, transaction.db
      ensures old(transaction.status) == Pending ==>
        r == Pass && transaction.status == RolledBack &&
        transaction.db.tables == old(transaction.db.tables).(jobQueue := transaction.snapshot)
      ensures old(transaction.status) != Pending ==>
        r == Fail(InvalidOperation) && transaction.status == old(transaction.status) &&
        transaction.db.tables == old(transaction.db.tables)
    {
      r := transaction.Rollback();
    }

    /**
     * `Dispose`: disposes the transaction (discarding a delete that was
     * neither committed nor rolled back) and releases the connection.
     */
    method Dispose()
      requires storage.Valid()
      modifies transaction, transaction.db, storage`connections
      ensures storage.Valid()
      ensures storage.connections == old(storage.connections) - {connection}
      ensures old(transaction.status) == Pending ==>
        transaction.status == RolledBack &&
        transaction.db.tables == old(transaction.db.tables).(jobQueue := transaction.snapshot)
      ensures old(transaction.status) != Pending ==>
        transaction.status == old(transaction.status) && transaction.db.tables == old(transaction.db.tables)
    {
      transaction.Dispose();
      storage.ReleaseConnection(connection);
    }
  }
}
