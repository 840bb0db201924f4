/** Optional values and evaluation outcomes used across the gallery model. */
module Wrappers {

  /** A value that may be absent: the model's stand-in for `null`/`undefined`. */
  datatype Option<+T> = None | Some(value: T)

  /** The outcome of an evaluation that may throw. */
  datatype Result<+R, +E> = Success(value: R) | Failure(error: E)
}
