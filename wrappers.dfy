/** Option and Result: the models' stand-ins for Python's `None` and for
    exceptions that reach an HTTP boundary. */
module Wrappers {

  datatype Option<+T> = None | Some(value: T)

  datatype Result<+R, +E> = Ok(value: R) | Err(error: E)
}
