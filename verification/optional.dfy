/** A value that may be absent: the model's stand-in for Rust's `Option` and for
    a `Result` whose error carries nothing the program looks at. */
module Optional {

  datatype Option<+T> = None | Some(value: T) {

    /** The carried value, or `default` when there is none. */
    function GetOr(default: T): T {
      match this
      case Some(v) => v
      case None => default
    }
  }
}
