/** Optional values, used wherever the JavaScript code has `null`/`undefined`
    or a `try`/`catch` that may produce nothing. */
module Wrappers {

  datatype Option<+T> = None | Some(value: T) {

    /** The wrapped value, or `default` when there is none. */
    function GetOr(default: T): T {
      match this
      case Some(v) => v
      case None => default
    }
  }
}
