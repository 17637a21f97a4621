/** Option and Result, used for null pointers and for the errors the source raises. */
module Wrappers {

  /** `None` stands for a null pointer. */
  datatype Option<+T> = None | Some(value: T)

  datatype Result<+T, +E> = Ok(value: T) | Err(error: E)
}
