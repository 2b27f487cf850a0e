/** Datatypes every component uses. */
module Common {
  /** A nullable value: a SQL NULL, a missing dictionary key, Python's None. */
  datatype Option<+T> = None | Some(value: T) {
    function GetOr(default: T): T {
      if Some? then value else default
    }
  }

  /** A returned value, or the exception raised instead of it. */
  datatype Result<+T, +E> = Ok(value: T) | Err(error: E)
}
