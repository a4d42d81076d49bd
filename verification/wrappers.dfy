/** The optional value used wherever the browser hands back `null`
    (a missing attribute, a selector without a match) or where a
    resolution may fail. */
module Wrappers {

  datatype Option<+T> = None | Some(value: T) {

    /** Returns the value held in Some, or the given default for None. */
    function GetOr(default: T): T {
      match this
      case Some(v) => v
      case None => default
    }
  }
}
