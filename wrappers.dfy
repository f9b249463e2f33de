/** Optional values, standing in for PHP's `null`. */
module Wrappers {

  datatype Option<+T> = None | Some(value: T) {

    /** Returns the value, or a default for None (PHP's `??`). */
    function GetOr(default: T): T {
      match this
      case Some(v) => v
      case None => default
    }
  }
}
