/** Optional values and results with an error code, as used by the relay model. */
module Wrappers {

  /** A value that JavaScript may leave `undefined`. */
  datatype Option<+T> = None | Some(value: T)

  /** The outcome of a step that may answer the request early with an error status. */
  datatype Result<+R, +E> = Success(value: R) | Failure(error: E)
}
