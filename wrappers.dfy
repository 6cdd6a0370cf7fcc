/** Optional values and success-or-error results shared by every module of the model. */
module Wrappers {

  /** A value that may be absent, as an optional field of a request or a reply. */
  datatype Option<+T> = None | Some(value: T) {
    function GetOr(default: T): (v: T) {
      match this
      case Some(v) => v
      case None => default
    }
  }

  /** The outcome of a service operation: its payload or the value it throws. */
  datatype Result<+R, +E> = Success(value: R) | Failure(error: E)
}
