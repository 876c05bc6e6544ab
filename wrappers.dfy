/** An explicit present-or-absent value, standing for the page's `T | null`
    fields and for the `x ?? fallback` idiom. */
module Wrappers {

  datatype Option<+T> = None | Some(value: T) {

    /** The value if present, otherwise `fallback` (JavaScript `x ?? fallback`). */
    function GetOr(fallback: T): T {
      match this
      case Some(v) => v
      case None => fallback
    }
  }
}
