/** supabase/functions/send-invite-smtp: send the invite e-mail through Resend, once per recipient and link a minute. */
module SendInviteSmtp {
  import opened Wrappers
  import opened Text
  import opened Http
  import opened Retry
  import opened Idempotency
  import opened EmailGuard

  /** `{to, inviteUrl, projectName?}`; absent fields are `None`. */
  datatype SmtpBody = SmtpBody(to: Option<string>, inviteUrl: Option<string>, projectName: Option<string>)

  const MissingFields := "Missing required fields: to, inviteUrl"
  const InvalidEmail := "Invalid email format"
  const InvalidUrl := "Invalid invite URL format"
  const DefaultProject := "Ağ GPT"

  /** `${to}:${inviteUrl}`. */
  function RequestKey(to: string, inviteUrl: string): string {
    to + ":" + inviteUrl
  }

  /** `🎟️ ${projectName || 'Ağ GPT'} daveti`. */
  function Subject(projectName: Option<string>): (r: string)
    ensures Truthy(projectName) ==> r == "\U{1F39F}\U{FE0F} " + projectName.value + " daveti"
    ensures !Truthy(projectName) ==> r == "\U{1F39F}\U{FE0F} " + DefaultProject + " daveti"
  {
    "\U{1F39F}\U{FE0F} " + (if Truthy(projectName) then projectName.value else DefaultProject) + " daveti"
  }

  /** An empty project name reads as no project name. */
  lemma EmptyProjectIsDefault()
    ensures Subject(Some("")) == Subject(None)
  {
  }

  /** The checks before the guard, in order; `isUrl` stands for `new URL(...)` not throwing. */
  function Validate(body: SmtpBody, isUrl: string -> bool): (r: Option<SendReply>)
    ensures r.None? <==>
      Truthy(body.to) && Truthy(body.inviteUrl) && MatchesEmailPattern(body.to.value) && isUrl(body.inviteUrl.value)
    ensures r.Some? ==> r.value.BadRequest?
  {
    if !Truthy(body.to) || !Truthy(body.inviteUrl) then Some(BadRequest(MissingFields))
    else if !MatchesEmailPattern(body.to.value) then Some(BadRequest(InvalidEmail))
    else if !isUrl(body.inviteUrl.value) then Some(BadRequest(InvalidUrl))
    else None
  }

  /** The handler, as send-invite's but keyed by recipient and link, without the "network" marker. */
  method Handle(recent: RecentRequests, verb: string, request: Request<SmtpBody>, isUrl: string -> bool, now: int,
                outcomes: seq<SendOutcome>)
    returns (reply: SendReply, sent: Option<Outgoing>, calls: nat)
    requires |outcomes| >= DefaultMaxRetries
    modifies recent
    ensures verb == "OPTIONS" ==> reply == Preflight
    ensures verb != "OPTIONS" && verb != "POST" ==> reply == MethodNotAllowed
    ensures verb == "POST" && request.Malformed? ==> reply == ServerError(ErrorMessage(request.error, "Internal server error"))
    ensures verb == "POST" && request.Malformed? ==> recent.stamps == old(recent.stamps) && sent.None? && calls == 0
    ensures verb == "POST" && request.Parsed? && Validate(request.body, isUrl).Some? ==> reply == Validate(request.body, isUrl).value
    ensures verb == "POST" && request.Parsed? && Validate(request.body, isUrl).None? ==>
      var body := request.body;
      var admission := AdmitSpec(old(recent.stamps), RequestKey(body.to.value, body.inviteUrl.value), now);
      recent.stamps == admission.stamps &&
      (admission.duplicateOf.Some? ==> reply == Duplicate(admission.duplicateOf.value) && sent.None?) &&
      (admission.duplicateOf.None? ==>
         var run := RetryFrom(outcomes, DefaultMaxRetries, SmtpMarkers, 1);
         reply == ReplyOf(run.result) && sent == Some(Outgoing(body.to.value, Subject(body.projectName))) && calls == run.calls)
    ensures sent.None? ==> calls == 0
    ensures reply.Status() == 400 || reply.Status() == 405 || reply.Preflight? ==> recent.stamps == old(recent.stamps) && sent.None?
  {
    if verb == "OPTIONS" {
      return Preflight, None, 0;
    }
    if verb != "POST" {
      return MethodNotAllowed, None, 0;
    }
    if request.Malformed? {
      return ServerError(ErrorMessage(request.error, "Internal server error")), None, 0;
    }
    var body := request.body;
    var invalid := Validate(body, isUrl);
    if invalid.Some? {
      return invalid.value, None, 0;
    }
    reply, sent, calls := Dispatch(recent, RequestKey(body.to.value, body.inviteUrl.value),
                                   Outgoing(body.to.value, Subject(body.projectName)), now, outcomes, SmtpMarkers);
  }

  /** A "network" error is retried by send-invite but ends send-invite-smtp's loop at once. */
  lemma NetworkErrorMarkersDiffer()
    ensures Retryable(Some("network"), SendInviteMarkers)
    ensures !Retryable(Some("network"), SmtpMarkers)
  {
    assert Contains("network", SendInviteMarkers[4]);
    NoChar("network", "5", 0);
    NoChar("network", "429", 0);
    NoChar("network", "timeout", 1);
    NoChar("network", "connection", 0);
  }
}
