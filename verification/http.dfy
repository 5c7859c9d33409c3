/** The HTTP statuses the server's controllers answer with. */
module Http {
  datatype Status = Ok | BadRequest | NotFound | Conflict | ServerError {
    function Code(): int {
      match this
      case Ok => 200
      case BadRequest => 400
      case NotFound => 404
      case Conflict => 409
      case ServerError => 500
    }
  }
}
