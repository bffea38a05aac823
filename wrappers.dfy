/** Result types shared by every module of the model. */
module Wrappers {

  /** A value that may be absent: a nullable reference or an empty `Optional`. */
  datatype Option<+T> = None | Some(value: T)

  /** The outcome of an operation that returns a value or throws. */
  datatype Result<+T, +E> = Success(value: T) | Failure(error: E)

  /** The outcome of an operation that returns nothing (a `void` method) or throws. */
  datatype Outcome<+E> = Pass | Fail(error: E)
}
