/** A value that may be absent: JavaScript's `undefined` / Python's `None` / a pandas NaN cell. */
module Optional {

  datatype Option<+T> = None | Some(value: T) {

    /** The value, or `default` when absent (the `x || default` and `.get(k, default)` idioms). */
    function GetOr(default: T): T {
      match this
      case Some(v) => v
      case None => default
    }
  }
}
