/**
 * The storage options object: its defaults and the guarded poll-interval
 * setter. Every duration (a `TimeSpan` in the source) is a whole number of
 * seconds.
 */
module StorageOptions {
  import opened Wrappers

  datatype IsolationLevel =
    | Unspecified | Chaos | ReadUncommitted | ReadCommitted | RepeatableRead | Serializable | Snapshot

  const DefaultQueuePollInterval: int := 15
  const DefaultJobExpirationCheckInterval: int := 60 * 60
  const DefaultCountersAggregateInterval: int := 5 * 60
  const DefaultDashboardJobListLimit: int := 50000
  const DefaultTransactionTimeout: int := 60
  const DefaultInvisibilityTimeout: int := 30 * 60

  /**
   * The guard of the `QueuePollInterval` setter: zero is rejected, and so is a
   * value whose absolute value differs from it, i.e. a negative one; both with
   * an `ArgumentException` naming the parameter "value".
   */
  function CheckQueuePollInterval(value: int): (r: Outcome)
    ensures r.Pass? <==> value > 0
    ensures r.Fail? ==> r.error == Argument(Some("value"))
  {
    if value == 0 then Fail(Argument(Some("value")))
    else if value != (if value < 0 then -value else value) then Fail(Argument(Some("value")))
    else Pass
  }

  class MySqlStorageOptions {
    var transactionIsolationLevel: Option<IsolationLevel>
    var queuePollInterval: int
    var jobExpirationCheckInterval: int
    var countersAggregateInterval: int
    var prepareSchemaIfNecessary: bool
    var dashboardJobListLimit: Option<int>
    var transactionTimeout: int
    var invisibilityTimeout: int

    /** The object invariant the setter keeps: the poll interval is strictly positive. */
    ghost predicate Valid()
      reads this
    {
      queuePollInterval > 0
    }

    constructor ()
      ensures Valid()
      ensures transactionIsolationLevel == Some(ReadCommitted)
      ensures queuePollInterval == DefaultQueuePollInterval
      ensures jobExpirationCheckInterval == DefaultJobExpirationCheckInterval
      ensures countersAggregateInterval == DefaultCountersAggregateInterval
      ensures prepareSchemaIfNecessary
      ensures dashboardJobListLimit == Some(DefaultDashboardJobListLimit)
      ensures transactionTimeout == DefaultTransactionTimeout
      ensures invisibilityTimeout == DefaultInvisibilityTimeout
    {
      transactionIsolationLevel := Some(ReadCommitted);
      queuePollInterval := DefaultQueuePollInterval;
      jobExpirationCheckInterval := DefaultJobExpirationCheckInterval;
      countersAggregateInterval := DefaultCountersAggregateInterval;
      prepareSchemaIfNecessary := true;
      dashboardJobListLimit := Some(DefaultDashboardJobListLimit);
      transactionTimeout := DefaultTransactionTimeout;
      invisibilityTimeout := DefaultInvisibilityTimeout;
    }

    /** The `QueuePollInterval` setter: the guard runs before the field is written. */
    method SetQueuePollInterval(value: int) returns (r: Outcome)
      modifies this`queuePollInterval
      ensures r.Pass? <==> value > 0
      ensures r.Fail? ==> r.error == Argument(Some("value"))
      ensures queuePollInterval == if r.Pass? then value else old(queuePollInterval)
      ensures old(Valid()) ==> Valid()
    {
      r := CheckQueuePollInterval(value);
      if r.Pass? {
        queuePollInterval := value;
      }
    }
  }
}
