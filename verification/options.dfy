/** The conventional optional value, used wherever the source has a value
    that may be missing (a file that does not exist, a regex that did not
    match, a JSON field that is absent). */
module Options {

  datatype Option<+T> = None | Some(value: T) {

    /** The value, or `default` when there is none. */
    function GetOr(default: T): T {
      match this
      case Some(v) => v
      case None => default
    }
  }
}
