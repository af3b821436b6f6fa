/** Optional values: PHP's nullable fields and request keys that may be absent or null. */
module Wrappers {

  datatype Option<+T> = None | Some(value: T) {

    /** `$x ?? $default`: the value when present, otherwise the default. */
    function GetOr(default: T): T {
      match this
      case Some(v) => v
      case None => default
    }
  }
}
