/** Failure-carrying values: a Python `None` and a raised exception become
    explicit results here. */
module Wrappers {

  datatype Option<+T> = None | Some(value: T)

  datatype Result<+T, +E> = Ok(value: T) | Err(error: E)
}
