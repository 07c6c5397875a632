/** Optional values and error-carrying results, standing in for Go's
    `nil` pointers and `(value, error)` return pairs. */
module Outcomes {

  /** A value that may be absent (a Go `nil` pointer or `nil` error). */
  datatype Option<+T> = None | Some(value: T)

  /** A value or the error that prevented computing it. */
  datatype Result<+T, +E> = Ok(value: T) | Err(error: E)
}
