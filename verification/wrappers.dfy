/** The optional-value and outcome wrappers shared by every module of the model. */
module Wrappers {

  /** A value that may be absent: `undefined` in the modelled code. */
  datatype Option<+T> = None | Some(value: T)

  /** The outcome of an operation that may throw: `Ok` carries the value, `Err` the error. */
  datatype Result<+T, +E> = Ok(value: T) | Err(error: E)
}
