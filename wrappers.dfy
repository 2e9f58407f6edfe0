/** Optional values, used wherever the source signals "no value" with a
    sentinel (a null pointer, Python's None, a -1 index). */
module Wrappers {

  datatype Option<+T> = None | Some(value: T) {

    /** The wrapped value, or `default` when there is none. */
    function GetOr(default: T): T {
      match this
      case Some(v) => v
      case None => default
    }
  }
}
