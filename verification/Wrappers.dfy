module Wrappers {
  /** The outcome of an operation that throws or returns an error code. */
  datatype Result<+T, +E> = Ok(value: T) | Err(error: E)

  datatype Option<+T> = None | Some(value: T)
}
