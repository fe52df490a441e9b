/** Failure-carrying wrappers used throughout the model. */
module Wrappers {

  /** A value that may be absent: the model of a Java reference that may be null. */
  datatype Option<+T> = None | Some(value: T)

  /** Either a value or an error. */
  datatype Result<+T, +E> = Ok(value: T) | Err(error: E)
}
