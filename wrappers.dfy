/** Option and Result datatypes used by the feed model. */
module Wrappers {

  /** A value that may be absent (a nullable field upstream). */
  datatype Option<+T> = None | Some(value: T)

  /** The outcome of a procedure that either returns a value or throws. */
  datatype Result<+T, +E> = Ok(value: T) | Err(error: E)
}
