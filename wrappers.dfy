/** Optional values and error outcomes shared by every module of the model. */
module Wrappers {

  /** A value that may be absent; stands for a nullable reference in the source. */
  datatype Option<+T> = None | Some(value: T) {
    function GetOr(default: T): T {
      match this
      case Some(v) => v
      case None => default
    }
  }

  /** An operation that either succeeds with a value or raises an exception. */
  datatype Result<+T, +E> = Success(value: T) | Failure(error: E)
}
