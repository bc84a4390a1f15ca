/** The absent-value marker the model uses where pandas yields NaN or raises. */
module Wrappers {

  datatype Option<+T> = None | Some(value: T) {

    /** The value of a Some, or the given default for None. */
    function GetOr(default: T): T {
      match this
      case Some(v) => v
      case None => default
    }
  }
}
