/** The exceptions a route may raise and the HTTP responses the error handlers build
    from them. */
module HttpErrors {
  import opened Wrappers
  import opened Json

  /** The exception classes the handlers tell apart; `text` is `str(error)`.
      `ValueError` stands for every subclass of it as well. */
  datatype Exception =
    | BadRequest(text: string)
    | ServerError(text: string)
    | ValueError(text: string)
    | HandledToolError(code: Option<string>, kind: Option<string>, subtype: Option<string>, text: string)
    | UnhandledToolError(code: Option<string>, kind: Option<string>, subtype: Option<string>, text: string)
    | OtherError(text: string)

  datatype HttpResponse = HttpResponse(body: Json, status: int)

  /** What awaiting a route handler gives: its response, or the exception it raised. */
  datatype Outcome = Returned(response: HttpResponse) | Raised(error: Exception)

  /** The JSON error document with an `error_subtype` field. */
  function ErrorBody(code: Json, kind: Json, subtype: Json, message: string, trace: string): (j: Json)
    ensures j.JObject? && j.fields.Keys == {"error_code", "error_type", "error_subtype", "error_message", "traceback"}
    ensures j.fields["error_message"] == JStr(message) && j.fields["traceback"] == JStr(trace)
  {
    JObject(map["error_code" := code, "error_type" := kind, "error_subtype" := subtype,
                "error_message" := JStr(message), "traceback" := JStr(trace)])
  }
}
