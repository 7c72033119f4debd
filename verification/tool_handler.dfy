/** The special handler for tool failures, and the route that uses it. */
module ToolHandler {
  import opened Wrappers
  import opened Json
  import opened HttpErrors
  import RouteErrorHandler

  /** `ToolErrorHandler.handle_error`: a handled tool error is the client's fault (400),
      an unhandled one the server's (500); the error's own code, type and subtype are
      copied and the message is its text. Anything else is left to the next handler. */
  function HandleToolError(e: Exception, trace: string): (r: Option<HttpResponse>)
    ensures r.Some? <==> e.HandledToolError? || e.UnhandledToolError?
    ensures r.Some? ==> r.value.status == (if e.HandledToolError? then 400 else 500)
    ensures r.Some? ==> r.value.body == ErrorBody(OptStr(e.code), OptStr(e.kind), OptStr(e.subtype), e.text, trace)
  {
    match e
    case HandledToolError(code, kind, subtype, text) =>
      Some(HttpResponse(ErrorBody(OptStr(code), OptStr(kind), OptStr(subtype), text, trace), 400))
    case UnhandledToolError(code, kind, subtype, text) =>
      Some(HttpResponse(ErrorBody(OptStr(code), OptStr(kind), OptStr(subtype), text, trace), 500))
    case _ => None
  }

  /** A route decorated with the tool handler: tool errors get the tool handler's
      response, every other exception the fallback's. */
  lemma ToolRoute(e: Exception, trace: string)
    ensures var r := RouteErrorHandler.Handle(Raised(e), [HandleToolError], trace);
            if e.HandledToolError? || e.UnhandledToolError? then r == HandleToolError(e, trace).value
            else r == RouteErrorHandler.Fallback(e, trace)
  {
    var hs: seq<RouteErrorHandler.Handler> := [HandleToolError];
    if e.HandledToolError? || e.UnhandledToolError? {
      RouteErrorHandler.FirstHandlerWins(hs, e, trace, 0);
    } else {
      assert hs[0](e, trace).None?;
    }
  }
}
