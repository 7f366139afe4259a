/** Option and Result values used wherever the application can fail or a field can be absent. */
module Wrappers {

  /** A value that may be missing (JavaScript `undefined` or `null`). */
  datatype Option<+T> = None | Some(value: T)

  /** The outcome of an operation that either succeeds with a value or fails with an error. */
  datatype Result<+T, +E> = Ok(value: T) | Err(error: E)
}
