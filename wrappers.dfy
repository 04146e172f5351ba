/** Option and Result, the two failure-carrying wrappers the rest of the model uses. */
module Wrappers {

  datatype Option<+T> = None | Some(value: T)

  /** The outcome of an operation that either produces a value or raises an error. */
  datatype Result<+R, +E> = Ok(value: R) | Err(error: E)
}
