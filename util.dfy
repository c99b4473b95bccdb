/** Small wrapper types shared by the whole model. */
module Util {

  /** A value that may be absent (a nullable column, an unset request key). */
  datatype Option<T> = None | Some(value: T) {
    /** The value, or the given default when absent (PHP's `??`). */
    function GetOr(default: T): T {
      match this
      case Some(v) => v
      case None => default
    }
  }

  /** The outcome of an operation that either produces a value or throws. */
  datatype Result<T, E> = Success(value: T) | Failure(error: E)
}
