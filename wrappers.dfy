/** Option and Result: a missing value (pandas `None`) and an operation that either
    succeeds or raises. */
module Wrappers {
  datatype Option<+T> = None | Some(value: T)

  datatype Result<+T, +E> = Ok(value: T) | Err(error: E)
}
