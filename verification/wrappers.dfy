/** The Option type used for every value that may be absent: a hash field
    that `HGET` does not find, a request parameter that was not sent, or a
    browser without a session cookie. */
module Wrappers {

  datatype Option<+T> = None | Some(value: T) {

    /** Returns the value held in Some, or `default` if None. */
    function GetOr(default: T): T {
      match this
      case Some(v) => v
      case None => default
    }
  }
}
