/** Failure-carrying datatypes shared by the rest of the model: Go's `(value, ok)`
    pairs become `Option`, a bare `error` return becomes `Outcome`, and a
    `(value, error)` pair becomes `Result`. */
module Wrappers {

  /** A value that may be absent, as in Go's `v, ok := m[k]`. */
  datatype Option<+T> = None | Some(value: T)

  /** A bare Go `error` result: `Pass` is `nil`, `Fail(e)` is a non-nil error. */
  datatype Outcome<+E> = Pass | Fail(error: E)

  /** A Go `(value, error)` pair in which exactly one side is meaningful. */
  datatype Result<+T, +E> = Success(value: T) | Failure(error: E)
}
