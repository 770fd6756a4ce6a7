/** Failure-carrying datatypes used for the error paths of the model. */
module Wrappers {

  datatype Option<+T> = None | Some(value: T)

  /** The outcome of an operation that either produces a value or raises an error. */
  datatype Result<+T, +E> = Ok(value: T) | Err(error: E)

  /** The outcome of an operation whose only result is success or a raised error. */
  datatype Outcome<+E> = Pass | Fail(error: E)
}
