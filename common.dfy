/** Values shared by every part of the check-in service model. */
module Common {

  /** A value that may be absent: a SQL NULL, an `undefined` request field. */
  datatype Option<+T> = None | Some(value: T) {
    function GetOr(default: T): T {
      match this
      case Some(v) => v
      case None => default
    }
  }

  /** An HTTP reply: a status code with either a JSON body or an `{ error }` message. */
  datatype Reply<+T> = Body(code: int, body: T) | Error(code: int, error: string)

  /** JavaScript truthiness of an optional string: `undefined`, `null` and `''` are falsy. */
  predicate Truthy(s: Option<string>) {
    s.Some? && s.value != ""
  }
}
