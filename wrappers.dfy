/** Option and Result values shared by every module of the model. */
module Wrappers {

  datatype Option<+T> = None | Some(value: T)

  /** The outcome of an operation that the source may abort by raising. */
  datatype Result<+T, +E> = Ok(value: T) | Err(error: E)
}
