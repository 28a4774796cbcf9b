/** Option and Result, the failure-carrying values used throughout the model. */
module Wrappers {

  datatype Option<+T> = None | Some(value: T)

  /** The outcome of a step that the source can abort with an exception. */
  datatype Result<+R, +E> = Ok(value: R) | Err(error: E)
}
