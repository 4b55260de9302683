/** The parts of Express's request/response objects that the middleware touches. */
module Http {

  import opened Wrappers

  /** A JavaScript `Error`: its message and its stack trace (supplied by the runtime). */
  datatype ErrorValue = ErrorValue(message: string, stack: string)

  /** The JSON bodies the middleware sends. */
  datatype Body =
    | MessageBody(message: string)                      // { message }
    | ErrorBody(message: string, stack: Option<string>) // { message, stack }, `None` for `null`

  const Ok := 200
  const Created := 201
  const BadRequest := 400
  const Unauthorized := 401
  const NotFoundStatus := 404
  const InternalServerError := 500

  /** Express's `res`: the status code (200 until someone sets it) and the body sent. */
  class Response {
    var statusCode: int
    var body: Option<Body>

    constructor ()
      ensures statusCode == Ok && body == None
    {
      statusCode := Ok;
      body := None;
    }

    /** `res.status(code)`. */
    method Status(code: int)
      modifies this
      ensures statusCode == code && body == old(body)
    {
      statusCode := code;
    }

    /** `res.json(b)`: sends `b` with the current status. */
    method Json(b: Body)
      modifies this
      ensures body == Some(b) && statusCode == old(statusCode)
    {
      body := Some(b);
    }
  }
}
