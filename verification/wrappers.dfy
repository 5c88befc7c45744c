/** The optional value used throughout the model for Go's "value or nothing"
    results (a function name that may be missing, an error that may be nil). */
module Wrappers {

  datatype Option<+T> = None | Some(value: T) {

    /** The wrapped value, or `default` when there is none. */
    function GetOr(default: T): T {
      match this
      case Some(v) => v
      case None => default
    }
  }
}
