/** Failure-carrying result types shared by every module of the model. */
module Wrappers {

  /** A value that may be absent: JavaScript's `undefined`/`null` for optional fields. */
  datatype Option<+T> = None | Some(value: T)

  /** The outcome of an operation that the source ends with `throw` on failure. */
  datatype Result<+T, +E> = Ok(value: T) | Err(error: E)
}
