/** The centralised error middleware (middleware/errorHandler.js). */
module ErrorHandler {

  import opened Wrappers
  import opened Http

  /** The status the handler answers with, given the one already on the response:
      a status still at 200 becomes 500, any other is kept, so 200 never leaves. */
  function ResponseStatus(current: int): (code: int)
    ensures code != Ok
    ensures current == Ok ==> code == InternalServerError
    ensures current != Ok ==> code == current
  {
    if current == Ok then InternalServerError else current
  }

  /** `process.env.NODE_ENV === "production"`; the environment is a parameter. */
  predicate IsProduction(nodeEnv: Option<string>) {
    nodeEnv == Some("production")
  }

  /** The `stack` field of the body: hidden (`null`) in production, the error's stack otherwise. */
  function StackShown(err: ErrorValue, nodeEnv: Option<string>): (stack: Option<string>)
    ensures stack.None? <==> IsProduction(nodeEnv)
    ensures stack.Some? ==> stack.value == err.stack
  {
    if IsProduction(nodeEnv) then None else Some(err.stack)
  }

  /** `errorHandler(err, req, res, next)`: fixes the status, then sends the message
      and, outside production, the stack. */
  method HandleError(err: ErrorValue, res: Response, nodeEnv: Option<string>)
    modifies res
    ensures res.statusCode == ResponseStatus(old(res.statusCode))
    ensures res.body == Some(ErrorBody(err.message, StackShown(err, nodeEnv)))
  {
    var statusCode := ResponseStatus(res.statusCode);
    res.Status(statusCode);
    res.Json(ErrorBody(err.message, StackShown(err, nodeEnv)));
  }
}
