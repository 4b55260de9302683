/** The handler of unmatched routes (middleware/notFound.js) and what the error
    middleware then makes of its error. */
module NotFound {

  import opened Wrappers
  import opened Text
  import opened Http
  import ErrorHandler

  /** The message of the error created for an unmatched URL. */
  function RouteMessage(originalUrl: string): (message: string)
    ensures Contains(message, originalUrl)
  {
    var message := "\U{1F50D} Route " + originalUrl + " not found";
    assert StartsWith(message[8..], originalUrl);
    message
  }

  /** `notFound(req, res, next)`: sets 404 on the shared response, sends nothing,
      and returns the error it passes to `next`. The stack trace comes from the runtime. */
  method Handle(originalUrl: string, stack: string, res: Response) returns (forwarded: ErrorValue)
    modifies res
    ensures res.statusCode == NotFoundStatus && res.body == old(res.body)
    ensures forwarded == ErrorValue(RouteMessage(originalUrl), stack)
  {
    forwarded := ErrorValue(RouteMessage(originalUrl), stack);
    res.Status(NotFoundStatus);
  }

  /** A request no route matched: a fresh response goes through `notFound` and then
      `errorHandler`. It ends with 404, never 500, and its message names the URL. */
  method UnmatchedRoute(originalUrl: string, stack: string, nodeEnv: Option<string>) returns (res: Response)
    ensures res.statusCode == NotFoundStatus
    ensures res.body.Some? && res.body.value.ErrorBody?
    ensures Contains(res.body.value.message, originalUrl)
    ensures res.body.value.stack == ErrorHandler.StackShown(ErrorValue(RouteMessage(originalUrl), stack), nodeEnv)
  {
    res := new Response();
    var err := Handle(originalUrl, stack, res);
    ErrorHandler.HandleError(err, res, nodeEnv);
  }
}
