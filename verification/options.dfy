/** Values that may be absent, as Python's `None` makes them. */
module Options {

  datatype Option<+T> = None | Some(value: T) {

    /** What is held, falling back to `default` on `None`. */
    function GetOr(default: T): T {
      if Some? then value else default
    }
  }
}
