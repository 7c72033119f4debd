/** The older route decorator: it classifies exceptions itself, with integer error
    codes and no subtype field. The traceback text is a parameter. */
module ErrorHandler {
  import opened Wrappers
  import opened Json
  import opened HttpErrors
  import RouteErrorHandler
  import ToolHandler

  const InvalidParams := "INVALID_PARAMS"
  const InvalidParamsMessage := "Request failed due to invalid parameters"

  /** The JSON error document without an `error_subtype` field. */
  function Body(status: int, kind: string, message: string, trace: string): (j: Json)
    ensures j.JObject? && j.fields.Keys == {"error_code", "error_type", "error_message", "traceback"}
    ensures j.fields["error_code"] == JInt(status) && j.fields["error_type"] == JStr(kind)
    ensures j.fields["error_message"] == JStr(message)
  {
    JObject(map["error_code" := JInt(status), "error_type" := JStr(kind),
                "error_message" := JStr(message), "traceback" := JStr(trace)])
  }

  /** `error_handler`: a response passes through; ServerError is 500, a BadRequest whose
      text is "INVALID_PARAMS" gets a fixed message, any other BadRequest and every
      ValueError are 400 with their own text, and the rest is 500. */
  function Handle(outcome: Outcome, trace: string): (r: HttpResponse)
    ensures outcome.Returned? ==> r == outcome.response
    ensures outcome.Raised? ==> var e := outcome.error;
            && r.status == (if e.BadRequest? || e.ValueError? then 400 else 500)
            && r.body == Body(r.status,
                              if e.ServerError? then "SERVER_ERROR"
                              else if e.BadRequest? && e.text == InvalidParams then InvalidParams
                              else if e.BadRequest? then "BAD_REQUEST"
                              else if e.ValueError? then "VALUE_ERROR"
                              else "SERVER_ERROR",
                              if e.BadRequest? && e.text == InvalidParams then InvalidParamsMessage else e.text,
                              trace)
  {
    match outcome
    case Returned(response) => response
    case Raised(e) =>
      match e
      case ServerError(text) => HttpResponse(Body(500, "SERVER_ERROR", text, trace), 500)
      case BadRequest(text) =>
        if text == InvalidParams then HttpResponse(Body(400, InvalidParams, InvalidParamsMessage, trace), 400)
        else HttpResponse(Body(400, "BAD_REQUEST", text, trace), 400)
      case ValueError(text) => HttpResponse(Body(400, "VALUE_ERROR", text, trace), 400)
      case _ => HttpResponse(Body(500, "SERVER_ERROR", e.text, trace), 500)
  }

  /** Both decorators give every exception the same status, and the same error type
      except for the INVALID_PARAMS request; only this one writes the code as a number. */
  lemma AgreesWithFallback(e: Exception, trace: string)
    ensures Handle(Raised(e), trace).status == RouteErrorHandler.Fallback(e, trace).status
    ensures !(e.BadRequest? && e.text == InvalidParams) ==>
            Handle(Raised(e), trace).body.fields["error_type"] == RouteErrorHandler.Fallback(e, trace).body.fields["error_type"]
    ensures Handle(Raised(e), trace).body.fields["error_code"] != RouteErrorHandler.Fallback(e, trace).body.fields["error_code"]
  {
  }

  /** A handled tool error is a server error here, though the tool handler's route
      answers it with 400. */
  lemma ToolErrorsAreServerErrors(code: Option<string>, kind: Option<string>, subtype: Option<string>, text: string, trace: string)
    ensures var e := HandledToolError(code, kind, subtype, text);
            && Handle(Raised(e), trace).status == 500
            && RouteErrorHandler.Handle(Raised(e), [ToolHandler.HandleToolError], trace).status == 400
  {
    ToolHandler.ToolRoute(HandledToolError(code, kind, subtype, text), trace);
  }
}
