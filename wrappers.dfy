/** The two failure-carrying shapes the model needs: a value that may be
    missing (Python's `None`) and the outcome of an operation that may raise. */
module Wrappers {

  datatype Option<+T> = None | Some(value: T)

  datatype Result<+T, +E> = Ok(value: T) | Err(error: E)
}
