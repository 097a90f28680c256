/** Failure-carrying datatypes used throughout the model. */
module Wrappers {

  /** An optional value; models Python's `None` or a value. */
  datatype Option<+T> = None | Some(value: T)

  /** The outcome of a call that may raise: a value, or the raised error. */
  datatype Result<+T, +E> = Success(value: T) | Failure(error: E)
}
