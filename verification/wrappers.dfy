/** Optional values: the model's stand-in for JavaScript's `undefined`. */
module Wrappers {

  /** A value that may be absent (`undefined` after optional chaining). */
  datatype Option<+T> = None | Some(value: T) {

    /** The value if present, otherwise `default` (JavaScript's `??`). */
    function GetOr(default: T): T {
      match this
      case Some(v) => v
      case None => default
    }
  }
}
