/** The shapes the services hand back to their callers: a formatted response
    `{status, data, message}`, the raw value when `autoSend` is false, or an
    `{error: {...}}` object. */
module Responses {
  import opened Wrappers
  import opened Documents
  import Messages

  /** The `error` member of an error object. `data` is the list of
      `{[errKey]: text}` entries, present only when an `errKey` was given. */
  datatype ErrorInfo = ErrorInfo(status: int, message: string,
                                 data: Option<seq<(string, string)>>,
                                 conflictKey: Option<Id>, conflictObj: Option<Doc>)

  /** A service result: a value, or the error object that the callers pass
      to `FilterErrorAndThrow`. */
  datatype Result<T> = Ok(value: T) | Fail(error: ErrorInfo)

  /** What a response carries in `data`, or what is returned raw. */
  datatype Body =
    | NoBody
    | One(doc: Doc)
    | Many(docs: seq<Doc>)
    | Counts(matched: nat, modified: nat)    // the raw `updateMany` report
    | Flag(b: bool)                          // `checkDuplicate`'s `true`
    | ArticleView(article: Doc, related: seq<Doc>, content: string, statistics: Option<Doc>)
                                             // an article with `relatedArticles`, `content`, `player_statistics`

  /** A formatted response, or the raw value returned with `autoSend: false`. */
  datatype Reply =
    | Formatted(status: int, data: Body, message: string, cookie: Option<string>)
    | Raw(body: Body)

  /** The `data` of a formatted response, or the raw value. */
  function Payload(r: Reply): Body {
    match r
    case Formatted(_, b, _, _) => b
    case Raw(b) => b
  }

  /** The `autoSend` switch shared by every service. */
  function Send(autoSend: bool, status: int, body: Body, message: string): (r: Reply)
    ensures autoSend <==> r.Formatted?
    ensures r.Formatted? ==> r.status == status && r.data == body && r.message == message && r.cookie.None?
    ensures r.Raw? ==> r.body == body
    ensures Payload(r) == body
  {
    if autoSend then Formatted(status, body, message, None) else Raw(body)
  }

  /** The 404 error object; it carries `data: [{[errKey]: NOT_FOUND}]` only for a
      truthy `errKey`. */
  function NotFoundError(errKey: Option<string>): (e: ErrorInfo)
    ensures e.status == 404 && e.message == Messages.NotFound
    ensures e.data.Some? <==> Truthy(errKey)
    ensures e.data.Some? ==> e.data.value == [(errKey.value, Messages.NotFound)]
    ensures e.conflictKey.None? && e.conflictObj.None?
  {
    ErrorInfo(404, Messages.NotFound,
              if Truthy(errKey) then Some([(errKey.value, Messages.NotFound)]) else None,
              None, None)
  }

  /** An error object with only a status and a message. */
  function Error(status: int, message: string): ErrorInfo {
    ErrorInfo(status, message, None, None, None)
  }
}
