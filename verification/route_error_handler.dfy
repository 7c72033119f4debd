/** The route decorator that turns an exception into an HTTP error response: the
    special handlers are asked in order, and a fallback classifies what none of
    them answers. The traceback text is a parameter. */
module RouteErrorHandler {
  import opened Wrappers
  import opened Json
  import opened HttpErrors

  /** A special handler: a response for the errors it knows, `None` otherwise. */
  type Handler = (Exception, string) -> Option<HttpResponse>

  /** `_handle_errors_from_handlers`: the first handler's response that is not `None`. */
  function HandleFromHandlers(handlers: seq<Handler>, e: Exception, trace: string): (r: Option<HttpResponse>)
    ensures r.None? <==> forall i :: 0 <= i < |handlers| ==> handlers[i](e, trace).None?
    ensures r.Some? ==> exists i :: 0 <= i < |handlers| && handlers[i](e, trace) == r &&
                                    forall j :: 0 <= j < i ==> handlers[j](e, trace).None?
  {
    if |handlers| == 0 then None
    else if handlers[0](e, trace).Some? then handlers[0](e, trace)
    else
      var r := HandleFromHandlers(handlers[1..], e, trace);
      assert forall i :: 1 <= i < |handlers| ==> handlers[i] == handlers[1..][i - 1];
      r
  }

  /** The handler whose answer is used is the first one that answers. */
  lemma FirstHandlerWins(handlers: seq<Handler>, e: Exception, trace: string, i: nat)
    requires i < |handlers| && handlers[i](e, trace).Some?
    requires forall j :: 0 <= j < i ==> handlers[j](e, trace).None?
    ensures HandleFromHandlers(handlers, e, trace) == handlers[i](e, trace)
  {
    var r := HandleFromHandlers(handlers, e, trace);
    assert r.Some?;
    var k :| 0 <= k < |handlers| && handlers[k](e, trace) == r &&
             forall j :: 0 <= j < k ==> handlers[j](e, trace).None?;
    assert k == i;
  }

  /** `_handle_fallback_error`: BadRequest and ValueError are client errors (400), any
      other exception a server error (500); the code is the status as a string and
      there is no subtype. */
  function Fallback(e: Exception, trace: string): (r: HttpResponse)
    ensures r.status == (if e.BadRequest? || e.ValueError? then 400 else 500)
    ensures r.body == ErrorBody(JStr(if r.status == 400 then "400" else "500"),
                                JStr(if e.BadRequest? then "BAD_REQUEST" else if e.ValueError? then "VALUE_ERROR" else "SERVER_ERROR"),
                                JNull, e.text, trace)
  {
    match e
    case BadRequest(text) => HttpResponse(ErrorBody(JStr("400"), JStr("BAD_REQUEST"), JNull, text, trace), 400)
    case ValueError(text) => HttpResponse(ErrorBody(JStr("400"), JStr("VALUE_ERROR"), JNull, text, trace), 400)
    case _ => HttpResponse(ErrorBody(JStr("500"), JStr("SERVER_ERROR"), JNull, e.text, trace), 500)
  }

  /** `_error_handler`: a response passes through; an exception goes to the special
      handlers first and to the fallback when none of them answers. */
  function Handle(outcome: Outcome, handlers: seq<Handler>, trace: string): (r: HttpResponse)
    ensures outcome.Returned? ==> r == outcome.response
    ensures outcome.Raised? && (forall i :: 0 <= i < |handlers| ==> handlers[i](outcome.error, trace).None?)
            ==> r == Fallback(outcome.error, trace)
    ensures outcome.Raised? && !(forall i :: 0 <= i < |handlers| ==> handlers[i](outcome.error, trace).None?)
            ==> exists i :: 0 <= i < |handlers| && handlers[i](outcome.error, trace) == Some(r)
  {
    match outcome
    case Returned(response) => response
    case Raised(e) =>
      match HandleFromHandlers(handlers, e, trace)
      case Some(response) => response
      case None => Fallback(e, trace)
  }

  /** With no special handlers every exception is classified by the fallback alone. */
  lemma NoSpecialHandlers(e: Exception, trace: string)
    ensures Handle(Raised(e), [], trace) == Fallback(e, trace)
  {
  }

  /** Every response the fallback builds is an error status. */
  lemma FallbackIsError(e: Exception, trace: string)
    ensures 400 <= Fallback(e, trace).status < 600
  {
  }
}
