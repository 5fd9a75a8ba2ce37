/** Option and Result values for the query parameters and the handlers' replies. */
module Wrappers {

  /** A query parameter that may be absent from the request. */
  datatype Option<+T> = None | Some(value: T) {
    /** The parameter's value, or `default` when it is absent. */
    function GetOr(default: T): T {
      match this
      case Some(v) => v
      case None => default
    }
  }

  /** A handler's reply: a value on success, or the message of a 400 reply. */
  datatype Result<+T> = Ok(value: T) | Err(msg: string)
}
