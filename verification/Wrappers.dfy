/** Optional values and fallible results shared by every module of the model. */
module Wrappers {

  /** A pointer or slice that may be nil. */
  datatype Option<+T> = None | Some(value: T)

  /** Go's `(value, error)` pair, where exactly one of the two is meaningful. */
  datatype Result<+T, +E> = Success(value: T) | Failure(error: E)
}
