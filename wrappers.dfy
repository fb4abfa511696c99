/** Failure-carrying results used by the model in place of Python exceptions. */
module Wrappers {

  datatype Option<+T> = None | Some(value: T)

  /** A computation that either produced a value or raised an error. */
  datatype Result<+R, +E> = Success(value: R) | Failure(error: E)

  /** A computation run for its effect: it either completed or raised an error. */
  datatype Outcome<+E> = Pass | Fail(error: E)
}
