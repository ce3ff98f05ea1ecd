/** Failure-carrying values shared by every part of the marketplace model. */
module Wrappers {

  datatype Option<+T> = None | Some(value: T) {
    function GetOr(default: T): T {
      match this
      case Some(v) => v
      case None => default
    }
  }

  /** The outcome of an endpoint: its value, or the HTTP status code of the
      exception it raises. */
  datatype Result<+T> = Ok(value: T) | Err(status: int)

  const BadRequest := 400
  const Unauthorized := 401
  const Forbidden := 403
  const NotFound := 404
  const NotAcceptable := 406
}
