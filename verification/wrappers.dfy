/** Small general-purpose datatypes shared by the other modules. */
module Wrappers {

  /** An optional value: `None` when absent, `Some(value)` when present. */
  datatype Option<T> = None | Some(value: T) {
    /** The value, or `default` when there is none. */
    function GetOr(default: T): T {
      match this
      case Some(v) => v
      case None => default
    }
  }
}
