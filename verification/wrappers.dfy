/** The two result shapes the models share: a value that may be absent (Python's
    `None`) and a value that may be an exception. */
module Wrappers {

  datatype Option<+T> = None | Some(value: T)

  datatype Result<+T, +E> = Ok(value: T) | Err(error: E)
}
