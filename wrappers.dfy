/**
 * The optional value used wherever the Java code returns `null` or may have nothing
 * to return, and the outcome of a step that either succeeds or throws.
 */
module Wrappers {
  datatype Option<+T> = None | Some(value: T)

  datatype Result<+T, +E> = Ok(value: T) | Err(error: E)
}
