/** Failure-carrying wrappers used to model the exceptions of the source as values. */
module Wrappers {

  /** A value that may be absent (a C# null reference or a missing lookup). */
  datatype Option<+T> = None | Some(value: T)

  /** The outcome of an operation that returns a value or throws. */
  datatype Result<+T, +E> = Success(value: T) | Failure(error: E)

  /** The outcome of an operation that returns nothing or throws. */
  datatype Outcome<+E> = Pass | Fail(error: E)
}
