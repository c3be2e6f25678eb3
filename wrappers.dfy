/** Optional values: an argument or an option field the caller may leave out. */
module Wrappers {
  datatype Option<+T> = None | Some(value: T) {
    /** The value if present, `default` otherwise (a JavaScript default parameter). */
    function GetOr(default: T): T {
      match this
      case Some(v) => v
      case None => default
    }
  }
}
