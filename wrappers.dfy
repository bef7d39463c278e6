/** Option and Result, the failure-carrying values used across the model. */
module Wrappers {

  datatype Option<+T> = None | Some(value: T)

  /** A computation that either produced `value` or failed with `error`. */
  datatype Result<+T, +E> = Ok(value: T) | Err(error: E)
}
