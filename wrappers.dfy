/** Option and Result values, used for Python's "missing key" defaults and raised exceptions. */
module Wrappers {

  datatype Option<+T> = None | Some(value: T) {
    /** The value, or a default when it is absent (Python's dict.get(key, default)). */
    function GetOr(default: T): T {
      match this
      case Some(v) => v
      case None => default
    }
  }

  /** A computation that either succeeds or raises an exception carrying a message. */
  datatype Result<+R, +E> = Success(value: R) | Failure(error: E)
}
