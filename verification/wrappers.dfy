/**
 * Failure-compatible wrappers shared by every module of the registry client.
 */
module Wrappers {

  /** `Some(v)` for a present Go pointer or map, `None` for Go's `nil`. */
  datatype Option<+T> = None | Some(value: T)

  /** The `(value, error)` pair a Go function returns: exactly one half is meaningful. */
  datatype Result<+T, +E> = Ok(value: T) | Err(error: E)
}
