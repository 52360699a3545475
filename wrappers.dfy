/** Option and Result, the two failure-carrying shapes the rest of the model uses. */
module Wrappers {

  /** A value that may be absent: JavaScript's null / Python's None. */
  datatype Option<+T> = None | Some(value: T)

  /** The outcome of an operation that either returns a value or raises an error. */
  datatype Result<+R, +E> = Ok(value: R) | Err(error: E)
}
