/** Optional values and results shared by every module of the model. */
module Wrappers {

  /** A value that may be absent: Java's `null` return or an empty `Optional`. */
  datatype Option<+T> = None | Some(value: T)

  /** The outcome of an operation that either returns a value or throws. */
  datatype Result<+T, +E> = Ok(value: T) | Err(error: E)
}
