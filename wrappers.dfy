/** Failure-carrying result types used in place of Go's `(value, error)` pairs. */
module Wrappers {

  datatype Option<+T> = None | Some(value: T)

  /** A value or an error: Go's `(T, error)` with exactly one of the two meaningful. */
  datatype Result<+T, +E> = Success(value: T) | Failure(error: E)

  /** An operation that returns only `error`: `nil` (Pass) or an error (Fail). */
  datatype Outcome<+E> = Pass | Fail(error: E)
}
