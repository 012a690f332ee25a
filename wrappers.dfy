/** Option and Result, the two failure-compatible wrappers used across the model. */
module Wrappers {

  datatype Option<+T> = None | Some(value: T)

  /** The outcome of a repository call: a value, or the exception the call raised. */
  datatype Result<+T, +E> = Ok(value: T) | Err(error: E)
}
