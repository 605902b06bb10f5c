/** Option and Result, the two shapes a store operation's answer takes. */
module Wrappers {

  /** A value that may be absent: the model of a Go pointer that may be nil. */
  datatype Option<+T> = None | Some(value: T)

  /** Either a value or an error: the model of Go's `(value, error)` pair. */
  datatype Result<+T, +E> = Ok(value: T) | Err(error: E)
}
