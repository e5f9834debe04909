/** The absent-or-present values that the session dictionaries and the JSON
    request bodies hand out through `.get(key)`. */
module Optional {

  datatype Option<+T> = None | Some(value: T) {

    /** The value when present, otherwise `default` (Python's `.get(key, default)`). */
    function GetOr(default: T): T {
      match this
      case Some(v) => v
      case None => default
    }
  }
}
