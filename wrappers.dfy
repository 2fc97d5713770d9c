/** Optional values and failure-carrying results shared by every module. */
module Wrappers {

  /** A value that may be absent (a JavaScript property that is `undefined`). */
  datatype Option<+T> = None | Some(value: T) {
    function GetOr(fallback: T): T {
      match this
      case Some(v) => v
      case None => fallback
    }
  }

  /** The settled state of an awaited call: the value it resolved to, or the error it threw. */
  datatype Result<+R, +E> = Success(value: R) | Failure(error: E)
}
