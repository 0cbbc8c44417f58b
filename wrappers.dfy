/** Presence/absence and success/failure values used throughout the model. */
module Wrappers {

  /** A value that may be absent (a NaN sentinel or a `valid == false` flag in the decoder). */
  datatype Option<+T> = None | Some(value: T)

  /** The outcome of a decode: a value or the reason it failed. */
  datatype Result<+T, +E> = Success(value: T) | Failure(error: E)
}
