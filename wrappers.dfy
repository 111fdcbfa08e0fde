/** Failure-carrying values: Go's `(value, error)` pairs and nil results. */
module Wrappers {

  /** A value or its absence (a nil pointer in Go). */
  datatype Option<+T> = None | Some(value: T)

  /** A value or the error returned in its place (Go's `(T, error)` with exactly one non-nil). */
  datatype Result<+T, +E> = Success(value: T) | Failure(error: E)

  /** Success without a value, or an error (a Go function returning only `error`). */
  datatype Outcome<+E> = Pass | Fail(error: E)
}
