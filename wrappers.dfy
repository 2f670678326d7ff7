/** Option and Result, shared by the three components. */
module Wrappers {

  /** A value that may be absent (Go's nil pointer). */
  datatype Option<+T> = None | Some(value: T)

  /** Either a value or an error (Go's `(value, error)` return pair). */
  datatype Result<+T, +E> = Success(value: T) | Failure(error: E)
}
