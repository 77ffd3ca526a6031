/** The Option type: a value that may be missing, as a failed lookup or a
    failed parse is modelled throughout the project. */
module Wrappers {

  datatype Option<+T> = None | Some(value: T) {

    /** The value held, or the given default. */
    function GetOr(default: T): T {
      match this
      case Some(v) => v
      case None => default
    }
  }
}
