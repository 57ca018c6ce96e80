/** Values that may be missing, and results that may be errors. */
module Wrappers {

  /** A value that may be absent (JavaScript's `null` or `undefined`). */
  datatype Option<+T> = None | Some(value: T)

  /** The outcome of an operation that throws instead of returning. */
  datatype Result<+T, +E> = Ok(value: T) | Err(error: E)
}
