/** Optional values, used wherever the source has a value that may be None. */
module Wrappers {

  datatype Option<+T> = None | Some(value: T) {

    /** The wrapped value, or `default` when there is none (Python's `x or default` on a nullable column). */
    function GetOr(default: T): T {
      match this
      case Some(v) => v
      case None => default
    }

    /** This value if there is one, otherwise `other`: a later assignment overriding an earlier one. */
    function Or(other: Option<T>): Option<T> {
      if Some? then this else other
    }
  }
}
