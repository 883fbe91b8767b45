/** The optional values the endpoint reads from JSON: a field that is present or missing. */
module Options {

  datatype Option<+T> = None | Some(value: T) {

    /** The present value, or `default` when the field is missing. */
    function GetOr(default: T): T {
      match this
      case Some(v) => v
      case None => default
    }
  }
}
