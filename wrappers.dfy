/** Failure-compatible wrappers shared by the model. */
module Wrappers {

  /** A value that may be absent: the model's stand-in for a Java null. */
  datatype Option<+T> = None | Some(value: T)

  /** The outcome of a call that returns a value or raises an error. */
  datatype Result<+T, +E> = Success(value: T) | Failure(error: E)

  /** The outcome of a call that returns nothing or raises an error. */
  datatype Outcome<+E> = Pass | Fail(error: E)
}
