/** Java's nullable references and thrown exceptions, as values. */
module Options {

  /** A value that may be absent: a Java reference that may be `null`. */
  datatype Option<+T> = None | Some(value: T) {

    /** The value, or `default` when absent. */
    function GetOr(default: T): T
    {
      match this
      case Some(v) => v
      case None => default
    }
  }

  /** The outcome of an operation that may fail with an error instead of a value. */
  datatype Result<+T, +E> = Ok(value: T) | Err(error: E)
}
