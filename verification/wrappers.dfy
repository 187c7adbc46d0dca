/** Optional values and outcomes shared by every module of the model. */
module Wrappers {

  /** A value that may be absent: a SQL row that did not match, a request field
      that was not sent, a SQL expression that evaluated to NULL. */
  datatype Option<+T> = None | Some(value: T) {

    /** The wrapped value, or `default` when there is none. */
    function GetOr(default: T): T {
      match this
      case Some(v) => v
      case None => default
    }
  }

  /** The outcome of an operation that either produces a value or fails with an error. */
  datatype Result<+R, +E> = Success(value: R) | Failure(error: E)
}
