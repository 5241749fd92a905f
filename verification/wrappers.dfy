/** Failure-carrying values used in place of Go's `(value, error)` returns. */
module Wrappers {

  /** A value that may be absent; `None` plays the role of Go's `nil` error. */
  datatype Option<+T> = None | Some(value: T)

  /** Either a value or an error, for operations that return one or the other. */
  datatype Result<+T, +E> = Success(value: T) | Failure(error: E)
}
