/** Option and Result, the failure-carrying values used across the model. */
module Wrappers {

  datatype Option<T> = None | Some(value: T)

  /** A computation that either succeeds with a value or fails with a message or status. */
  datatype Result<T, E> = Ok(value: T) | Err(error: E)
}
