/** Failure-carrying results shared by the modules of this project. */
module Wrappers {

  datatype Option<+T> = None | Some(value: T)

  /** The outcome of an operation that either yields a value or raises an error. */
  datatype Result<+R, +E> = Ok(value: R) | Err(error: E)
}
