/** Failure-carrying values shared by every module of the model. */
module Wrappers {

  /** A value that may be absent; stands for a nil pointer or a nil interface. */
  datatype Option<+T> = None | Some(value: T)

  /** A value or the error that prevented computing it. */
  datatype Result<+T, +E> = Ok(value: T) | Err(error: E)
}
