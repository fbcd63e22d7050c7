/** The optional value that stands for a nil pointer or a NULL column, and the result of a fallible call. */
module Wrappers {
  datatype Option<+T> = None | Some(value: T)
  datatype Result<+T, +E> = Ok(value: T) | Err(error: E)
}
