/**
 * The part of supabase/functions/send-invite and send-invite-smtp after validation: the duplicate
 * guard, then the send with retries, and the reply either gives.
 */
module EmailGuard {
  import opened Wrappers
  import opened Http
  import opened Retry
  import opened Idempotency

  /** The replies of both handlers: the CORS preflight, 405, 400, a duplicate, a sent message, 500. */
  datatype SendReply =
    | Preflight
    | MethodNotAllowed
    | BadRequest(error: string)
    | Duplicate(lastRequest: int)
    | SentOk(id: string)
    | ServerError(error: string)
  {
    function Status(): int {
      match this
      case Preflight => 200
      case MethodNotAllowed => 405
      case BadRequest(_) => 400
      case Duplicate(_) => 200
      case SentOk(_) => 200
      case ServerError(_) => 500
    }
  }

  /** A message handed to the mail provider. */
  datatype Outgoing = Outgoing(to: string, subject: string)

  /** The message `result.id` throws when the loop ran no attempt and returned nothing. */
  const NoResult := "Cannot read properties of undefined (reading 'id')"

  /** The reply for the outcome of the retry loop. */
  function ReplyOf(result: RetryResult): (r: SendReply)
    ensures result.Delivered? <==> r.SentOk?
    ensures result.Delivered? ==> r == SentOk(result.id)
    ensures !result.Delivered? ==> r.Status() == 500
  {
    match result
    case Delivered(id) => SentOk(id)
    case Thrown(message) => ServerError(ErrorMessage(message.GetOr(""), "Internal server error"))
    case NoAttempt => ServerError(NoResult)
  }

  /**
   * Admit the request under `key` at `now`; if it is new, send `mail` with the default three
   * attempts. `calls` counts the calls made to the provider.
   */
  method Dispatch(recent: RecentRequests, key: string, mail: Outgoing, now: int,
                  outcomes: seq<SendOutcome>, markers: seq<string>)
    returns (reply: SendReply, sent: Option<Outgoing>, calls: nat)
    requires |outcomes| >= DefaultMaxRetries
    modifies recent
    ensures var admission := AdmitSpec(old(recent.stamps), key, now);
      recent.stamps == admission.stamps &&
      (admission.duplicateOf.Some? ==> reply == Duplicate(admission.duplicateOf.value) && sent.None? && calls == 0) &&
      (admission.duplicateOf.None? ==>
         var run := RetryFrom(outcomes, DefaultMaxRetries, markers, 1);
         reply == ReplyOf(run.result) && sent == Some(mail) && calls == run.calls)
  {
    var duplicateOf := recent.Admit(key, now);
    if duplicateOf.Some? {
      return Duplicate(duplicateOf.value), None, 0;
    }
    var run := RetryWithBackoff(outcomes, DefaultMaxRetries, markers);
    reply, sent, calls := ReplyOf(run.result), Some(mail), run.calls;
  }

  /** With the default bound the loop always runs, so a reply of 500 always carries the send's own error. */
  lemma DispatchNeverWithoutAttempt(outcomes: seq<SendOutcome>, markers: seq<string>)
    requires |outcomes| >= DefaultMaxRetries
    ensures var run := RetryFrom(outcomes, DefaultMaxRetries, markers, 1);
      !run.result.NoAttempt? && 1 <= run.calls <= DefaultMaxRetries &&
      (ReplyOf(run.result).SentOk? <==> outcomes[run.calls - 1].Sent?)
  {
    RetryBounded(outcomes, DefaultMaxRetries, markers);
  }
}
