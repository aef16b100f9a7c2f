/** Option and Result: the failure-carrying datatypes used throughout the model. */
module Wrappers {

  datatype Option<+T> = None | Some(value: T)

  /** The outcome of an operation that raises an exception in the original code. */
  datatype Result<+T, +E> = Ok(value: T) | Err(error: E)
}
