/** Option and Result, the failure-carrying values used throughout the model. */
module Wrappers {

  datatype Option<+T> = None | Some(value: T)

  /** The outcome of an operation that may fail with an error message. */
  datatype Result<+T, +E> = Ok(value: T) | Err(error: E)
}
