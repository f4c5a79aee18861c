/** The optional value used wherever the server may find nothing (a missing
    form field, a failed decode, an absent occurrence). */
module Options {

  datatype Option<+T> = None | Some(value: T) {

    /** The value, or `default` when there is none. */
    function GetOr(default: T): T {
      match this
      case Some(v) => v
      case None => default
    }
  }
}
