/** The Option and Result types shared by the model. */
module Wrappers {

  /** A value that may be absent (Python's `None`, or a computation that raises). */
  datatype Option<+T> = None | Some(value: T)

  /** Either a value or the error (Python exception) that replaced it. */
  datatype Result<+T, +E> = Ok(value: T) | Err(error: E)
}
