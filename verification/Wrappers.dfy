/** Results of operations that may have nothing to return, or that may raise. */
module Wrappers {

  datatype Option<+T> = None | Some(value: T)

  datatype Result<+R, +E> = Ok(value: R) | Err(error: E)

  /** The exceptions of the language that operations raise on arguments they cannot take. */
  datatype ArgumentError = ValueError | IndexError
}
