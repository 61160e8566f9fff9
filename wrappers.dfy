/** Failure-compatible results shared by every module of the event bus model. */
module Wrappers {

  /** A Java reference that may be null: `None` stands for null. */
  datatype Option<+T> = None | Some(value: T)

  /** The exceptions the core raises towards its callers. */
  datatype Error =
    | IllegalArgument          // RequireUtils: a null or blank argument
    | UnableToInferEventClass  // EventStudioException thrown when the listened class cannot be inferred
    | BroadcastInterrupted     // a BroadcastInterruptionException that escaped a replay pass
    | NullPointer              // a null key handed to the concurrent station map

  /** Either the call returned normally or it threw `error`. */
  datatype Outcome = Pass | Fail(error: Error) {
    predicate IsFailure() { Fail? }
    function PropagateFailure(): Outcome requires Fail? { this }
  }

  datatype Result<+R> = Success(value: R) | Failure(error: Error) {
    predicate IsFailure() { Failure? }
    function PropagateFailure<U>(): Result<U> requires Failure? { Failure(error) }
    function Extract(): R requires Success? { value }
  }
}
