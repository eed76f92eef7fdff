/** Failure-carrying wrappers shared by the model: a value that may be absent and
    a value that may be an error. */
module Wrappers {

  datatype Option<+T> = None | Some(value: T)

  datatype Result<+T, +E> = Ok(value: T) | Err(error: E)
}
