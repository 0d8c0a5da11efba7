/** Optional values and failure-carrying results used across the model. */
module Wrappers {

  /** A value that may be absent: a Java reference that may be `null`. */
  datatype Option<+T> = None | Some(value: T)

  /** Either a value or the fault that stopped its computation. */
  datatype Result<+T, +E> = Success(value: T) | Failure(error: E)
}
