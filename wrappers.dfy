/** Failure-carrying values shared by every module of the model. */
module Wrappers {

  /** A value that may be absent: Python's `None` or a present value. */
  datatype Option<T> = None | Some(value: T)

  /** A computation that either produces a value or raises a Python exception. */
  datatype Result<T, E> = Ok(value: T) | Err(error: E)
}
