/** Small shared datatypes: nullable values and HTTP replies. */
module Common {

  /** A C# nullable value (`string?`, `bool?`, `int?`, a reference that may be null). */
  datatype Option<+T> = None | Some(value: T) {
    /** C#'s `x ?? d`. */
    function GetOr(d: T): T {
      match this
      case Some(v) => v
      case None => d
    }
  }

  /** What an endpoint answers: a 200 with a body, or a status code with a message. */
  datatype Reply<+T> = Ok(body: T) | Status(code: int, message: string)

  /** The outcome of one step of an endpoint's guard chain: go on, or answer with this status. */
  datatype Guard = Pass | Fail(code: int, message: string) {
    /** The reply a failed guard answers with. */
    function Reply<T>(): Reply<T>
      requires Fail?
    {
      Status(code, message)
    }
  }

  const BadRequest := 400
  const Unauthorized := 401
  const Forbidden := 403
  const NotFound := 404
}
