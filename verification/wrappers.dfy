/** Failure-carrying datatypes used in place of Go's `(value, error)` returns. */
module Wrappers {

  /** A value that may be absent. */
  datatype Option<+T> = None | Some(value: T)

  /** A value or the error that prevented computing it. */
  datatype Result<+R, +E> = Success(value: R) | Failure(error: E)

  /** The outcome of an operation that returns only an error (Go's `error`, nil on success). */
  datatype Outcome<+E> = Pass | Fail(error: E)
}
