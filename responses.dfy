/** Translation of the event-bus reply into the HTTP response: the `send`
    callback of the route handler and the helpers `customHttpResponseEnd`,
    `internalServerErrorEnd` and `badRequestEnd` of SwaggerRouter.java. */
module Responses {
  import opened Wrappers
  import opened JavaInt

  /** The status Vert.x gives a response nobody sets a status on. */
  const DefaultStatus: int := 200

  /** What a handler leaves on the HTTP response once it has ended it. A
      `message` of `None` stands for the reason phrase Vert.x derives from the
      status code. */
  datatype Response = Response(status: int, message: Option<string>, body: string)

  /** A reply message of the event bus: its body (`None` for a null body,
      otherwise `body().toString()`) and the two headers the gateway reads,
      `EventBusHeaders.HTTP_STATUS_CODE` and `EventBusHeaders.HTTP_STATUS_MESSAGE`. */
  datatype Reply = Reply(body: Option<string>, statusCode: Option<string>, statusMessage: Option<string>)

  /** What the transport hands to the `send` callback: a failure (no handler,
      timeout, transport error) or a reply. */
  datatype Outcome = Failed | Succeeded(reply: Reply)

  const InternalServerError: Response := Response(500, Some("Internal Server Error"), "")
  const BadRequest: Response := Response(400, Some("Bad Request"), "")

  const UnavailablePrefix: string := "Service Unavailable ("

  /** The status message used when a reply overrides the status code but not
      the message, whatever the code is. */
  function ServiceUnavailableMessage(code: int): string {
    UnavailablePrefix + IntToString(code) + ")"
  }

  /** The response the `send` callback writes for an outcome. */
  function TranslateReply(outcome: Outcome): Response {
    match outcome
    case Failed => InternalServerError
    case Succeeded(Reply(None, _, _)) => Response(DefaultStatus, None, "")
    case Succeeded(Reply(Some(body), None, _)) => Response(DefaultStatus, None, body)
    case Succeeded(Reply(Some(body), Some(code), message)) =>
      match ParseInt(code)
      case None => Response(DefaultStatus, None, body)
      case Some(status) => Response(status, Some(message.GetOr(ServiceUnavailableMessage(status))), body)
  }

  /** The body of a successful reply reaches the caller verbatim, a missing
      body as an empty one; a failed outcome never leaks anything. */
  lemma TranslateReplyBody(outcome: Outcome)
    ensures TranslateReply(outcome).body ==
      if outcome.Succeeded? then outcome.reply.body.GetOr("") else ""
  {
  }

  /** The status is the default one, 500 for a failed outcome, or a 32-bit
      code the reply supplied that parses; the override counts only when the
      reply carries a body. */
  lemma TranslateReplyStatus(outcome: Outcome)
    ensures var r := TranslateReply(outcome);
      r.status == if outcome.Failed? then 500
                  else if outcome.reply.body.Some? && outcome.reply.statusCode.Some?
                          && ParseInt(outcome.reply.statusCode.value).Some?
                  then ParseInt(outcome.reply.statusCode.value).value
                  else DefaultStatus
    ensures InInt32(TranslateReply(outcome).status)
  {
  }

  /** A status message is set exactly when the transport failed or a valid
      status override was applied; it is then the reply's own message if it
      has one, else the generated one. */
  lemma TranslateReplyMessage(outcome: Outcome)
    ensures var r := TranslateReply(outcome);
      && (r.message.Some? <==>
            (outcome.Failed? ||
             (outcome.reply.body.Some? && outcome.reply.statusCode.Some? &&
              ParseInt(outcome.reply.statusCode.value).Some?)))
      && (outcome.Succeeded? && r.message.Some? ==>
            r.message.value == outcome.reply.statusMessage.GetOr(ServiceUnavailableMessage(r.status)))
  {
  }

  /** The generated message names the code in the decimal form `parseInt`
      reads back. */
  lemma ServiceUnavailableNamesCode(code: int)
    requires InInt32(code)
    ensures var m := ServiceUnavailableMessage(code);
      && m[..|UnavailablePrefix|] == UnavailablePrefix
      && m[|m| - 1] == ')'
      && ParseInt(m[|UnavailablePrefix|..|m| - 1]) == Some(code)
  {
    var m := ServiceUnavailableMessage(code);
    assert m[|UnavailablePrefix|..|m| - 1] == IntToString(code);
    ParseIntToString(code);
  }

  /** For instance, a reply with status override `503` and no message gives a
      503 whose message contains `503`, with the body unchanged. */
  lemma ServiceUnavailableExample(body: string)
    ensures TranslateReply(Succeeded(Reply(Some(body), Some("503"), None))) ==
      Response(503, Some("Service Unavailable (503)"), body)
  {
    Code503("503");
    assert ServiceUnavailableMessage(503) == UnavailablePrefix + "503" + ")";
    assert UnavailablePrefix + "503" + ")" == "Service Unavailable (503)";
  }

  lemma Code503(s: string)
    requires s == "503"
    ensures ParseInt(s) == Some(503) && IntToString(503) == s
  {
    var five, fifty := s[..1], s[..2];
    assert five[..0] == [] && DigitsValue(five) == 5;
    assert fifty[..1] == five && DigitsValue(fifty) == 50;
    assert s[..2] == fifty && DigitsValue(s) == 503;
    assert NatToString(50) == "50" by { assert NatToString(5) == "5"; }
  }

  /** An override that is not a number is ignored without an error. */
  lemma MalformedOverrideIgnored(body: string, message: Option<string>)
    ensures TranslateReply(Succeeded(Reply(Some(body), Some("not-a-number"), message))) ==
      Response(DefaultStatus, None, body)
  {
    ParseIntRejectsNonDigit("not-a-number", 0);
  }

  /** The Vert.x `HttpServerResponse` as far as the handler uses it: status
      code, status message, and the body written by `end`. */
  class HttpServerResponse {
    var statusCode: int
    var statusMessage: Option<string>
    var ended: Option<string>

    /** A response nobody has touched yet. */
    predicate Untouched()
      reads this
    {
      statusCode == DefaultStatus && statusMessage.None? && ended.None?
    }

    /** What the caller receives, once the response has ended. */
    function Sent(): Response
      reads this
      requires ended.Some?
    {
      Response(statusCode, statusMessage, ended.value)
    }

    constructor ()
      ensures Untouched()
    {
      statusCode := DefaultStatus;
      statusMessage := None;
      ended := None;
    }

    method SetStatusCode(code: int)
      modifies this
      ensures statusCode == code
      ensures statusMessage == old(statusMessage) && ended == old(ended)
    {
      statusCode := code;
    }

    method SetStatusMessage(message: string)
      modifies this
      ensures statusMessage == Some(message)
      ensures statusCode == old(statusCode) && ended == old(ended)
    {
      statusMessage := Some(message);
    }

    /** `end(body)`; `end()` is `End("")`. A response ends once. */
    method End(body: string)
      requires ended.None?
      modifies this
      ensures ended == Some(body)
      ensures statusCode == old(statusCode) && statusMessage == old(statusMessage)
    {
      ended := Some(body);
    }
  }

  /** `internalServerErrorEnd`. */
  method InternalServerErrorEnd(response: HttpServerResponse)
    requires response.ended.None?
    modifies response
    ensures response.ended.Some? && response.Sent() == InternalServerError
  {
    response.SetStatusCode(500);
    response.SetStatusMessage("Internal Server Error");
    response.End("");
  }

  /** `badRequestEnd`. */
  method BadRequestEnd(response: HttpServerResponse)
    requires response.ended.None?
    modifies response
    ensures response.ended.Some? && response.Sent() == BadRequest
  {
    response.SetStatusCode(400);
    response.SetStatusMessage("Bad Request");
    response.End("");
  }

  /** `customHttpResponseEnd`: the reply carries a body and a status-code
      header. A code that does not parse leaves status and message as they
      were. */
  method CustomHttpResponseEnd(body: string, statusCode: string, statusMessage: Option<string>,
                               response: HttpServerResponse)
    requires response.ended.None?
    modifies response
    ensures response.ended == Some(body)
    ensures ParseInt(statusCode).Some? ==>
      response.statusCode == ParseInt(statusCode).value &&
      response.statusMessage == Some(statusMessage.GetOr(ServiceUnavailableMessage(response.statusCode)))
    ensures ParseInt(statusCode).None? ==>
      response.statusCode == old(response.statusCode) && response.statusMessage == old(response.statusMessage)
  {
    match ParseInt(statusCode)
    case Some(code) =>
      var message := ServiceUnavailableMessage(code);
      if statusMessage.Some? {
        message := statusMessage.value;
      }
      response.SetStatusCode(code);
      response.SetStatusMessage(message);
      response.End(body);
    case None =>
      response.End(body);
  }

  /** The `send` callback: it writes `TranslateReply(outcome)` on a response
      nobody has touched. */
  method OnReply(outcome: Outcome, response: HttpServerResponse)
    requires response.Untouched()
    modifies response
    ensures response.ended.Some? && response.Sent() == TranslateReply(outcome)
  {
    match outcome
    case Failed =>
      InternalServerErrorEnd(response);
    case Succeeded(reply) =>
      if reply.body.Some? {
        if reply.statusCode.Some? {
          CustomHttpResponseEnd(reply.body.value, reply.statusCode.value, reply.statusMessage, response);
        } else {
          response.End(reply.body.value);
        }
      } else {
        response.End("");
      }
  }
}
