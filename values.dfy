/** Small value wrappers shared by the model. */
module Values {

  datatype Option<+T> = None | Some(value: T) {
    function GetOr(default: T): T {
      match this
      case Some(v) => v
      case None => default
    }
  }

  datatype Result<+T, +E> = Ok(value: T) | Err(error: E)

  /** A persisted JSON document as the program finds it on disk:
      no file yet, a file that does not parse, or a parsed value. */
  datatype Document<+T> = Missing | Malformed | Parsed(value: T)
}
