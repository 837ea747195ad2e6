/** Option and Result, the failure-carrying values used across the model. */
module Wrappers {

  datatype Option<+T> = None | Some(value: T)

  /** The outcome of a Go call that returns `(value, error)`. */
  datatype Result<+T, +E> = Success(value: T) | Failure(error: E)
}
