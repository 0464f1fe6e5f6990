/** Small value wrappers shared by the whole model. */
module Wrappers {

  /** A value that may be absent: a missing JSON field, a lookup that found nothing. */
  datatype Option<+T> = None | Some(value: T) {

    /** The wrapped value, or `default` when absent (JavaScript's `x || default` on a
        field that is either missing or set). */
    function GetOr(default: T): T {
      match this
      case Some(v) => v
      case None => default
    }
  }

  /** What an HTTP handler answers: a status code, with a body for the successful replies. */
  datatype Reply<+T> = Ok(status: int, value: T) | Error(status: int)

  const OK := 200
  const CREATED := 201
  const BAD_REQUEST := 400
  const NOT_FOUND := 404
  const SERVER_ERROR := 500

  /** A JSON request body, reduced to its string-valued fields. */
  type Body = map<string, string>

  /** `req.body[key]`: the field's value, or None when the client did not send it. */
  function Field(body: Body, key: string): (r: Option<string>)
    ensures r.Some? <==> key in body
    ensures r.Some? ==> r.value == body[key]
  {
    if key in body then Some(body[key]) else None
  }
}
