/** Option and Result types shared by every module of the model. */
module Wrappers {

  /** A value that may be absent; stands for a nullable reference or a nullable value type. */
  datatype Option<+T> = None | Some(value: T)

  /** The outcome of an operation that can throw: the value it returns, or the exception it throws. */
  datatype Result<+T, +E> = Ok(value: T) | Err(error: E)
}
