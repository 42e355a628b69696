/** The two failure-carrying shapes the model uses. */
module Wrappers {

  /** A value that may be absent (a nullable column, a parse that fails). */
  datatype Option<+T> = None | Some(value: T)

  /** The outcome of an operation that either commits a value or raises. */
  datatype Result<+T, +E> = Ok(value: T) | Err(error: E)
}
