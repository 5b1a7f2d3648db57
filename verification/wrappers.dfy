/** Failure-carrying wrappers shared by the rest of the model. */
module Wrappers {

  /** A value that may be absent: Python's `None` versus an object. */
  datatype Option<+T> = None | Some(value: T)

  /** The outcome of an operation that either succeeds with a value or fails with an error. */
  datatype Result<+T, +E> = Success(value: T) | Failure(error: E)
}
