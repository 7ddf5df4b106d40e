/** Optional values and success/failure results, shared by every module of the model. */
module Wrappers {

  /** A value that may be absent (JavaScript's `null` / `undefined`). */
  datatype Option<+T> = None | Some(value: T)

  /** The outcome of an operation that can fail with an error value (a thrown `Error`). */
  datatype Result<+R, +E> = Success(value: R) | Failure(error: E)
}
