/** Option and Result values shared by every module of the model. */
module Wrappers {
  datatype Option<T> = None | Some(value: T)

  /** An outcome that either carries a value or the error the source raises. */
  datatype Result<T, E> = Ok(value: T) | Err(error: E)
}
