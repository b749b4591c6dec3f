/** Option and Result: the shapes in which the model returns what the Go code
    returns as a nil pointer, a second boolean or an error. */
module Wrappers {
  datatype Option<+T> = None | Some(value: T)

  datatype Result<+T, +E> = Ok(value: T) | Err(error: E)
}
