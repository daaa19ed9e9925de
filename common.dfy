/** Values shared by every route: an optional value, and the outcome of a handler. */
module Common {

  /** A value that may be absent; a request field that is `undefined` or `null` is `None`. */
  datatype Option<+T> = None | Some(value: T) {
    function GetOr(default: T): T {
      match this
      case Some(v) => v
      case None => default
    }
  }

  /** The outcome of a route handler: a success carrying its payload, or one of the
      error responses the handlers produce (400, 404, or 500 when the database
      rejects a write). */
  datatype Response<+T> =
    | Ok(value: T)
    | BadRequest(error: string)
    | NotFound(error: string)
    | ServerError(error: string)
}
