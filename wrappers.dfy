/** Optional values: a JSON field that may be null, empty or missing. */
module Wrappers {

  datatype Option<+T> = None | Some(value: T) {

    /** The value in Some, or the given default for None. */
    function GetOr(default: T): T {
      match this
      case Some(v) => v
      case None => default
    }
  }
}
