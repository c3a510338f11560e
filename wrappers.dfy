/** Option and Result, the two failure-carrying shapes used across the model:
    Python's `None` returns and its raised exceptions. */
module Wrappers {

  datatype Option<+T> = None | Some(value: T)

  datatype Result<+T, +E> = Ok(value: T) | Err(error: E)
}
