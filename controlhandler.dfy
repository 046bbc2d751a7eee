/** The Express wrapper every route goes through: it turns what a controller
    returned, or what it threw, into an HTTP status and a JSON body. */
module ControlHandler {
  import opened Wrappers
  import opened Responses
  import Messages

  datatype Request = Request(httpMethod: string, protocol: string, host: string)

  /** What a controller throws: a Joi validation error, an error object with
      a numeric `status` (the `error` of a service's error object), or an
      error without a status (a runtime or database error). */
  datatype Thrown = JoiValidation | Raised(error: ErrorInfo) | Untyped

  /** How a controller's promise settled; a falsy result is `Returned(None)`. */
  datatype Outcome = Returned(result: Option<Reply>) | Threw(thrown: Thrown)

  /** The JSON sent: the result (with `host` added on GET), the unknown-error
      body, the formatted Joi error, or the thrown error object. */
  datatype Json = ResultJson(reply: Reply, host: Option<string>) | UnknownErrorJson
                | JoiErrorJson | ErrorJson(error: ErrorInfo)

  /** A response with its status and the `x-access-token` cookie set, or the
      error handed to `next`. */
  datatype Response = Respond(status: int, json: Json, cookie: Option<string>) | PassToNext

  /** `result.status || 200`. */
  function StatusOf(r: Reply): int {
    if r.Formatted? && r.status != 0 then r.status else 200
  }

  /** The truthy `cookie` of a result, which is moved to the cookie header. */
  function CookieOf(r: Reply): Option<string> {
    if r.Formatted? && Truthy(r.cookie) then r.cookie else None
  }

  /** The result with its `cookie` deleted when it was truthy. */
  function WithoutCookie(r: Reply): (s: Reply)
    ensures CookieOf(s) == None
    ensures r.Raw? ==> s == r
    ensures r.Formatted? ==> s.Formatted? && s.status == r.status && s.data == r.data && s.message == r.message
    ensures Truthy(CookieOf(r)) || s == r
  {
    if CookieOf(r).Some? then r.(cookie := None) else r
  }

  /** `controlHandler`'s status selection and result rewriting. */
  function Handle(req: Request, outcome: Outcome): (resp: Response)
    ensures outcome.Returned? && outcome.result.Some? ==>
              var r := outcome.result.value;
              resp.Respond? && resp.status == StatusOf(r) && resp.cookie == CookieOf(r)
              && resp.json.ResultJson? && resp.json.reply == WithoutCookie(r)
              && CookieOf(resp.json.reply) == None && Payload(resp.json.reply) == Payload(r)
              && (resp.json.host.Some? <==> req.httpMethod == "GET")
              && (resp.json.host.Some? ==> resp.json.host.value == req.protocol + "://" + req.host + "/")
    ensures outcome == Returned(None) ==> resp == Respond(500, UnknownErrorJson, None)
    ensures outcome == Threw(JoiValidation) ==> resp == Respond(400, JoiErrorJson, None)
    ensures outcome.Threw? && outcome.thrown.Raised? && outcome.thrown.error.status < 500 ==>
              resp.Respond? && resp.json == ErrorJson(outcome.thrown.error) && resp.cookie.None?
              && resp.status == if outcome.thrown.error.status == 0 then 400 else outcome.thrown.error.status
    ensures resp == PassToNext <==>
              outcome == Threw(Untyped) || (outcome.Threw? && outcome.thrown.Raised? && outcome.thrown.error.status >= 500)
    ensures resp.Respond? && resp.cookie.Some? ==> Truthy(resp.cookie)
  {
    match outcome
    case Returned(None) => Respond(500, UnknownErrorJson, None)
    case Returned(Some(r)) =>
      var host := if req.httpMethod == "GET" then Some(req.protocol + "://" + req.host + "/") else None;
      Respond(StatusOf(r), ResultJson(WithoutCookie(r), host), CookieOf(r))
    case Threw(JoiValidation) => Respond(400, JoiErrorJson, None)
    case Threw(Raised(e)) =>
      if e.status < 500 then Respond(if e.status == 0 then 400 else e.status, ErrorJson(e), None)
      else PassToNext
    case Threw(Untyped) => PassToNext
  }

  /** A controller that returns its service's result and throws the error of
      an error object, as `FilterErrorAndThrow` does. */
  function Settle(r: Result<Reply>): Outcome {
    match r
    case Ok(v) => Returned(Some(v))
    case Fail(e) => Threw(Raised(e))
  }

  /** The service errors of the core (404, 409, 422) reach the client with
      their own status and body; a successful result keeps its status. */
  lemma ServiceResultStatus(req: Request, r: Result<Reply>)
    ensures r.Fail? && 0 < r.error.status < 500 ==>
              Handle(req, Settle(r)) == Respond(r.error.status, ErrorJson(r.error), None)
    ensures r.Ok? && r.value.Formatted? && r.value.status != 0 ==>
              Handle(req, Settle(r)).Respond? && Handle(req, Settle(r)).status == r.value.status
  {
  }
}
