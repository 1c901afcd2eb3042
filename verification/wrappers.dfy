/** The optional value used throughout the model for JSON fields that may be
    missing, SQL NULL columns, and lookups that may find nothing. */
module Wrappers {

  datatype Option<+T> = None | Some(value: T) {

    /** Python's `d.get(key, default)` and JavaScript's `x || default`
        on a missing value. */
    function GetOr(default: T): T {
      match this
      case Some(v) => v
      case None => default
    }
  }
}
