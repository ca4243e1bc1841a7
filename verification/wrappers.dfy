/** The Some/None datatype used for the store's "absent value" signal
    (`undefined` in the service) and for the optional fields of requests. */
module Wrappers {

  datatype Option<+T> = None | Some(value: T) {

    /** The value held in Some, or `default` when None: the meaning of the
        nullish-coalescing operator `x ?? default`. */
    function GetOr(default: T): (r: T)
      ensures Some? ==> r == value
      ensures None? ==> r == default
    {
      match this
      case Some(v) => v
      case None => default
    }
  }
}
