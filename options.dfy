/** The optional value used where the source has `undefined`. */
module Options {
  datatype Option<+T> = None | Some(value: T) {
    /** lodash's `getOr`: the value, or `default` when there is none. */
    function GetOr(default: T): T {
      match this
      case Some(v) => v
      case None => default
    }
  }
}
