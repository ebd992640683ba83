/** supabase/functions/send-invite: send an HTML e-mail through SendGrid, once per recipient and subject a minute. */
module SendInvite {
  import opened Wrappers
  import opened Text
  import opened Http
  import opened Retry
  import opened Idempotency
  import opened EmailGuard

  /** `{to, subject, html}`; absent fields are `None`. */
  datatype SendBody = SendBody(to: Option<string>, subject: Option<string>, html: Option<string>)

  const MissingFields := "Missing required fields: to, subject, html"
  const InvalidEmail := "Invalid email format"

  /** `${to}:${subject}`. */
  function RequestKey(to: string, subject: string): string {
    to + ":" + subject
  }

  /** The checks before the guard; `None` when the request may go on. */
  function Validate(body: SendBody): (r: Option<SendReply>)
    ensures r.None? <==> Truthy(body.to) && Truthy(body.subject) && Truthy(body.html) && MatchesEmailPattern(body.to.value)
    ensures r.Some? ==> r.value.BadRequest?
  {
    if !Truthy(body.to) || !Truthy(body.subject) || !Truthy(body.html) then Some(BadRequest(MissingFields))
    else if !MatchesEmailPattern(body.to.value) then Some(BadRequest(InvalidEmail))
    else None
  }

  /**
   * The handler: `verb` is the HTTP method, `now` the clock, `outcomes` what the provider answers
   * to successive calls.
   */
  method Handle(recent: RecentRequests, verb: string, request: Request<SendBody>, now: int, outcomes: seq<SendOutcome>)
    returns (reply: SendReply, sent: Option<Outgoing>, calls: nat)
    requires |outcomes| >= DefaultMaxRetries
    modifies recent
    ensures verb == "OPTIONS" ==> reply == Preflight
    ensures verb != "OPTIONS" && verb != "POST" ==> reply == MethodNotAllowed
    ensures verb == "POST" && request.Malformed? ==> reply == ServerError(ErrorMessage(request.error, "Internal server error"))
    ensures verb == "POST" && request.Malformed? ==> recent.stamps == old(recent.stamps) && sent.None? && calls == 0
    ensures verb == "POST" && request.Parsed? && Validate(request.body).Some? ==> reply == Validate(request.body).value
    ensures verb == "POST" && request.Parsed? && Validate(request.body).None? ==>
      var body := request.body;
      var admission := AdmitSpec(old(recent.stamps), RequestKey(body.to.value, body.subject.value), now);
      recent.stamps == admission.stamps &&
      (admission.duplicateOf.Some? ==> reply == Duplicate(admission.duplicateOf.value) && sent.None?) &&
      (admission.duplicateOf.None? ==>
         var run := RetryFrom(outcomes, DefaultMaxRetries, SendInviteMarkers, 1);
         reply == ReplyOf(run.result) && sent == Some(Outgoing(body.to.value, body.subject.value)) && calls == run.calls)
    ensures sent.None? ==> calls == 0
    ensures reply.Status() == 400 || reply.Status() == 405 || reply.Preflight? ==> recent.stamps == old(recent.stamps) && sent.None?
  {
    if verb == "OPTIONS" {
      return Preflight, None, 0;
    }
    if verb != "POST" {
      return MethodNotAllowed, None, 0;
    }
    if request.Malformed? {
      return ServerError(ErrorMessage(request.error, "Internal server error")), None, 0;
    }
    var body := request.body;
    var invalid := Validate(body);
    if invalid.Some? {
      return invalid.value, None, 0;
    }
    reply, sent, calls := Dispatch(recent, RequestKey(body.to.value, body.subject.value),
                                   Outgoing(body.to.value, body.subject.value), now, outcomes, SendInviteMarkers);
  }
}
