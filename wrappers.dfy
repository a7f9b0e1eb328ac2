/** The optional values used for JSON body fields, header values and lookups. */
module Wrappers {

  /** `None` stands for JavaScript's `undefined` (or a missing row). */
  datatype Option<+T> = None | Some(value: T) {

    /** The wrapped value, or `default` when there is none. */
    function GetOr(default: T): (r: T) {
      match this
      case Some(v) => v
      case None => default
    }
  }
}
