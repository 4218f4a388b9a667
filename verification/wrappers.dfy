/** Failure-compatible result types shared by the whole model. */
module Wrappers {

  /** A value that may be absent (a Java `null`). */
  datatype Option<+T> = None | Some(value: T)

  /** The value of an operation that either returns or throws. */
  datatype Result<+T, +E> = Ok(value: T) | Err(error: E)

  /** The outcome of a `void` operation that either returns or throws. */
  datatype Outcome<+E> = Pass | Fail(error: E)
}
