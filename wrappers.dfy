/** Optional values and failure-carrying results, used for PHP's nullable
    values and for the exceptions the library throws. */
module Wrappers {

  /** A PHP value of type `?T`: `None` is `null`. */
  datatype Option<+T> = None | Some(value: T) {
    function GetOr(default: T): T {
      match this
      case Some(v) => v
      case None => default
    }
  }

  /** The outcome of a PHP call that returns a value or throws. */
  datatype Result<+R, +E> = Success(value: R) | Failure(error: E)

  /** The outcome of a PHP call declared `void` that may throw. */
  datatype Outcome<+E> = Pass | Fail(error: E)
}
