/**
 * `retryWithBackoff` of supabase/functions/send-invite and send-invite-smtp: call the send up to
 * `maxRetries` times, stop at the first success, give up at once on an error that does not look
 * transient, and wait 1 s, 2 s, 4 s, ... between attempts. The send is a list of outcomes, one per
 * call, and the waits are returned rather than slept.
 */
module Retry {
  import opened Wrappers
  import opened Text

  /** One call of the send: a message id, or an error with its `message` (absent when it has none). */
  datatype SendOutcome = Sent(id: string) | Failed(message: Option<string>)

  /** How the loop ends: with the send's result, by rethrowing an error, or without calling at all. */
  datatype RetryResult = Delivered(id: string) | Thrown(message: Option<string>) | NoAttempt

  /** The result, the number of calls made and the waits in between, in order. */
  datatype RetryRun = RetryRun(result: RetryResult, calls: nat, delays: seq<int>)

  /** The markers of send-invite; send-invite-smtp has all but "network". */
  const SendInviteMarkers: seq<string> := ["5", "429", "timeout", "connection", "network"]
  const SmtpMarkers: seq<string> := ["5", "429", "timeout", "connection"]

  /** The default `maxRetries`. */
  const DefaultMaxRetries := 3

  function Pow2(n: nat): (r: nat)
    ensures r >= 1
  {
    if n == 0 then 1 else 2 * Pow2(n - 1)
  }

  /** `Math.pow(2, attempt - 1) * 1000`: the wait after failed attempt `attempt`. */
  function Delay(attempt: nat): int
    requires attempt >= 1
  {
    Pow2(attempt - 1) * 1000
  }

  /** The error looks transient: its message contains one of the markers. */
  predicate Retryable(message: Option<string>, markers: seq<string>) {
    message.Some? && exists i :: 0 <= i < |markers| && Contains(message.value, markers[i])
  }

  /** The loop from attempt `attempt` on: what the source's `for` loop does, as a recursive function. */
  function RetryFrom(outcomes: seq<SendOutcome>, maxRetries: int, markers: seq<string>, attempt: nat): (run: RetryRun)
    requires 1 <= attempt && |outcomes| >= maxRetries
    decreases maxRetries - attempt
  {
    if attempt > maxRetries then RetryRun(NoAttempt, attempt - 1, [])
    else
      match outcomes[attempt - 1]
      case Sent(id) => RetryRun(Delivered(id), attempt, [])
      case Failed(message) =>
        if attempt == maxRetries || !Retryable(message, markers) then RetryRun(Thrown(message), attempt, [])
        else
          var rest := RetryFrom(outcomes, maxRetries, markers, attempt + 1);
          RetryRun(rest.result, rest.calls, [Delay(attempt)] + rest.delays)
  }

  /**
   * From attempt `attempt` on, at most the remaining attempts are made; every failure before the
   * last call was transient, each is followed by its wait, and the last call decides the result.
   */
  lemma {:induction false} RetryFromShape(outcomes: seq<SendOutcome>, maxRetries: int, markers: seq<string>, attempt: nat)
    requires 1 <= attempt <= maxRetries && |outcomes| >= maxRetries
    ensures var run := RetryFrom(outcomes, maxRetries, markers, attempt);
      && attempt <= run.calls <= maxRetries
      && |run.delays| == run.calls - attempt
      && (forall k :: 0 <= k < |run.delays| ==> run.delays[k] == Delay(attempt + k))
      && (forall j :: attempt - 1 <= j < run.calls - 1 ==> outcomes[j].Failed? && Retryable(outcomes[j].message, markers))
      && (run.result.Delivered? ==> outcomes[run.calls - 1] == Sent(run.result.id))
      && (run.result.Thrown? ==>
            outcomes[run.calls - 1] == Failed(run.result.message) &&
            (run.calls == maxRetries || !Retryable(run.result.message, markers)))
      && !run.result.NoAttempt?
    decreases maxRetries - attempt
  {
    var run := RetryFrom(outcomes, maxRetries, markers, attempt);
    match outcomes[attempt - 1]
    case Sent(_) =>
    case Failed(message) =>
      if attempt < maxRetries && Retryable(message, markers) {
        RetryFromShape(outcomes, maxRetries, markers, attempt + 1);
        var rest := RetryFrom(outcomes, maxRetries, markers, attempt + 1);
        assert run.delays == [Delay(attempt)] + rest.delays;
        forall k | 0 <= k < |run.delays|
          ensures run.delays[k] == Delay(attempt + k)
        {
          if k > 0 {
            assert run.delays[k] == rest.delays[k - 1];
          }
        }
      }
  }

  /**
   * The whole loop: with a positive bound it calls the send between 1 and `maxRetries` times,
   * delivers the first success, and never waits after the last call; with no positive bound it
   * calls nothing.
   */
  lemma RetryBounded(outcomes: seq<SendOutcome>, maxRetries: int, markers: seq<string>)
    requires |outcomes| >= maxRetries
    ensures var run := RetryFrom(outcomes, maxRetries, markers, 1);
      && (maxRetries < 1 <==> run.result.NoAttempt?)
      && (maxRetries < 1 ==> run.calls == 0 && run.delays == [])
      && (maxRetries >= 1 ==>
            1 <= run.calls <= maxRetries && |run.delays| == run.calls - 1 &&
            (forall j :: 0 <= j < run.calls - 1 ==> outcomes[j].Failed?) &&
            (run.result.Delivered? <==> outcomes[run.calls - 1].Sent?))
  {
    if maxRetries >= 1 {
      RetryFromShape(outcomes, maxRetries, markers, 1);
    }
  }

  /** An error that does not look transient ends the loop at the call that raised it. */
  lemma PermanentErrorStops(outcomes: seq<SendOutcome>, maxRetries: int, markers: seq<string>, message: Option<string>)
    requires |outcomes| >= maxRetries >= 1 && outcomes[0] == Failed(message) && !Retryable(message, markers)
    ensures RetryFrom(outcomes, maxRetries, markers, 1) == RetryRun(Thrown(message), 1, [])
  {
  }

  function Sum(s: seq<int>): int {
    if s == [] then 0 else Sum(s[..|s| - 1]) + s[|s| - 1]
  }

  /** The first `n` waits, 1 s, 2 s, 4 s, ... add up to (2^n - 1) s. */
  lemma {:induction false} TotalWait(delays: seq<int>)
    requires forall k :: 0 <= k < |delays| ==> delays[k] == Delay(k + 1)
    ensures Sum(delays) == (Pow2(|delays|) - 1) * 1000
  {
    if delays != [] {
      TotalWait(delays[..|delays| - 1]);
    }
  }

  /** With the default bound of 3 the handler waits 3 s at most before its answer. */
  lemma DefaultWaitAtMostThreeSeconds(outcomes: seq<SendOutcome>, markers: seq<string>)
    requires |outcomes| >= DefaultMaxRetries
    ensures Sum(RetryFrom(outcomes, DefaultMaxRetries, markers, 1).delays) <= 3000
  {
    var run := RetryFrom(outcomes, DefaultMaxRetries, markers, 1);
    RetryFromShape(outcomes, DefaultMaxRetries, markers, 1);
    TotalWait(run.delays);
    assert Pow2(2) == 4;
  }

  /**
   * `includes('5')` looks for the digit anywhere in the message, so a client error whose text
   * holds a 5 (a 405 from the mail service, say) is retried like a server error.
   */
  lemma ClientErrorWithFiveRetried()
    ensures Retryable(Some("SendGrid API error: 405 - Method Not Allowed"), SendInviteMarkers)
  {
    var m := "SendGrid API error: 405 - Method Not Allowed";
    assert m[22..23] == "5";
    assert OccursAt(m, "5", 22);
    ContainsAt(m, "5");
    assert Contains(m, SendInviteMarkers[0]);
  }

  /** The loop itself, attempt by attempt. */
  method RetryWithBackoff(outcomes: seq<SendOutcome>, maxRetries: int, markers: seq<string>) returns (run: RetryRun)
    requires |outcomes| >= maxRetries
    ensures run == RetryFrom(outcomes, maxRetries, markers, 1)
  {
    var attempt := 1;
    var delays: seq<int> := [];
    while attempt <= maxRetries
      invariant 1 <= attempt
      invariant maxRetries >= 1 ==> attempt <= maxRetries + 1
      invariant maxRetries < 1 ==> attempt == 1
      invariant var rest := RetryFrom(outcomes, maxRetries, markers, attempt);
        RetryFrom(outcomes, maxRetries, markers, 1) == RetryRun(rest.result, rest.calls, delays + rest.delays)
      decreases maxRetries - attempt
    {
      match outcomes[attempt - 1]
      case Sent(id) =>
        return RetryRun(Delivered(id), attempt, delays);
      case Failed(message) =>
        if attempt == maxRetries || !Retryable(message, markers) {
          return RetryRun(Thrown(message), attempt, delays);
        }
        assert delays + ([Delay(attempt)] + RetryFrom(outcomes, maxRetries, markers, attempt + 1).delays)
            == (delays + [Delay(attempt)]) + RetryFrom(outcomes, maxRetries, markers, attempt + 1).delays;
        delays := delays + [Delay(attempt)];
        attempt := attempt + 1;
    }
    run := RetryRun(NoAttempt, attempt - 1, delays);
  }
}
