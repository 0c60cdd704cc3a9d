/** Option and Result, for Java's nullable/Optional values and thrown exceptions. */
module Wrappers {

  /** A value that may be absent: `Optional<T>`, or a reference that may be null. */
  datatype Option<+T> = None | Some(value: T)

  /** The outcome of a call that either returns a value or throws. */
  datatype Result<+T, +E> = Ok(value: T) | Err(error: E)
}
