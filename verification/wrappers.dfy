/** Optional values and success/failure results shared by every module. */
module Wrappers {

  /** A value that may be absent: a missing header, an undefined field. */
  datatype Option<+T> = None | Some(value: T)

  /** The outcome of a check that either passes a value on or reports an error. */
  datatype Result<+T, +E> = Success(value: T) | Failure(error: E)
}
