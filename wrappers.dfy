/** Failure-carrying datatypes used for the Go `(value, error)` returns of the builder. */
module Wrappers {

  /** A value that may be absent: Go's nil error (`None`) or a non-nil one (`Some`). */
  datatype Option<+T> = None | Some(value: T)

  /** A Go `(value, err)` pair where exactly one side is meaningful. */
  datatype Result<+R, +E> = Success(value: R) | Failure(error: E)
}
