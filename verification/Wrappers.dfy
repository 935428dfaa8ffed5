// Result types shared by the models: a Python value that may be None, and a
// call that may raise.
module Wrappers {
  datatype Option<+T> = None | Some(value: T)

  datatype Result<+T, +E> = Ok(value: T) | Err(error: E)
}
