/** The optional-value datatype used throughout the model. */
module Options {

  /** A value that may be missing (Python's None, a dictionary key that is absent). */
  datatype Option<+T> = None | Some(value: T) {

    /** The value, or `default` when there is none (Python's `d.get(k, default)`). */
    function GetOr(default: T): T {
      match this
      case Some(v) => v
      case None => default
    }
  }
}
