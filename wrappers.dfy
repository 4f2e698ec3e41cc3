/** Failure-carrying result types shared by every module of the model. */
module Wrappers {

  /** A present or absent value (a Go pointer that may be nil). */
  datatype Option<+T> = None | Some(value: T)

  /** A value or an error: the `(value, err)` pair a Go function returns. */
  datatype Result<+T, +E> = Ok(value: T) | Err(error: E)
}
