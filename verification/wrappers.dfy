/** Failure-carrying datatypes shared by the whole model. */
module Wrappers {

  /** A value that may be absent, as a regular-expression match that may fail. */
  datatype Option<+T> = None | Some(value: T)

  /** The outcome of a call that may throw: the value, or the text of the error. */
  datatype Result<+T, +E> = Ok(value: T) | Err(error: E)
}
