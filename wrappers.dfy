/** Failure-carrying values used for the engine's thrown errors. */
module Wrappers {

  datatype Option<+T> = None | Some(value: T)

  /** A value, or the error that was thrown instead of producing it. */
  datatype Result<+T, +E> = Success(value: T) | Failure(error: E)

  /** Success without a value, or the error that was thrown. */
  datatype Outcome<+E> = Pass | Fail(error: E)
}
