/** Optional values and success-or-error outcomes, used where the Go code returns a nil or an error. */
module Wrappers {

  /** A value that may be absent (a nil map, pointer or slice in Go). */
  datatype Option<+T> = None | Some(value: T)

  /** The outcome of a call that can fail (Go's `(value, error)` pair). */
  datatype Result<+T, +E> = Success(value: T) | Failure(error: E)
}
