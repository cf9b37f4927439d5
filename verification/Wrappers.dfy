/** Result types shared by the other modules. */
module Wrappers {
  datatype Option<+T> = None | Some(value: T)

  /** The pair of values a Go function `(T, error)` returns. */
  datatype Result<+T, +E> = Ok(value: T) | Err(error: E)
}
