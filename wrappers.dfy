/** Failure-carrying datatypes shared by every module of the model. */
module Wrappers {

  /** A nullable value: `None` stands for the source's `null`. */
  datatype Option<T> = None | Some(value: T)

  /** The exceptions the modelled code throws, with the parameter name where it has one. */
  datatype Error =
    | ArgumentNull(param: string)        // ArgumentNullException(param)
    | Argument(paramName: Option<string>) // ArgumentException, with or without a parameter name
    | InvalidOperation                   // InvalidOperationException
    | OperationCanceled                  // OperationCanceledException from a cancellation token
    | StoreError                         // MySqlException raised by the record store

  /** A value or the exception thrown instead of it. */
  datatype Result<T> = Ok(value: T) | Err(error: Error)

  /** The completion of an operation that returns nothing. */
  datatype Outcome = Pass | Fail(error: Error)

  /**
   * A cancellation token as a polling loop observes it. Loops number their
   * `ThrowIfCancellationRequested` checks 0, 1, 2, ...; the token reads as
   * cancelled at check `cancelledFrom` and at every later check, and never
   * when `cancelledFrom` is `None`.
   */
  datatype CancellationToken = CancellationToken(cancelledFrom: Option<nat>) {
    predicate IsCancellationRequested(check: nat) {
      cancelledFrom.Some? && cancelledFrom.value <= check
    }
  }

  /**
   * The leading `if (x == null) throw new ArgumentNullException("x")` guards
   * of a member, checked in order. Each argument is given by its parameter
   * name and whether it is present (non-null).
   */
  function CheckNotNull(args: seq<(string, bool)>): (r: Outcome)
    ensures r.Pass? <==> forall i :: 0 <= i < |args| ==> args[i].1
    ensures r.Fail? ==> exists i :: 0 <= i < |args| && !args[i].1 && r.error == ArgumentNull(args[i].0) &&
                                    forall j :: 0 <= j < i ==> args[j].1
  {
    if args == [] then Pass
    else if !args[0].1 then Fail(ArgumentNull(args[0].0))
    else CheckNotNull(args[1..])
  }
}
