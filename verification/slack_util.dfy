/** `deliver_slack_msg`: `SlackNotification.deliver_message` under a retry
    policy.  Only a Slack API error is retried; the wait before the next
    attempt starts at `delay` seconds and is multiplied by `backoff` after
    every failure; once `tries` attempts have failed the last error reaches
    the caller.  Any other error reaches the caller at once.  Sleeping is not
    modelled: the waits are recorded instead. */
module SlackUtil {
  import opened Wrappers
  import opened SlackNotification

  /** What one attempt of `deliver_message` does. */
  datatype Outcome = Sent | SlackApiError(reason: string) | OtherError(reason: string)

  /** How `deliver_slack_msg` ends for its caller. */
  datatype Ending = Returned | Raised(error: Outcome)

  datatype Policy = Policy(tries: nat, delay: nat, backoff: nat)

  /** The policy `deliver_slack_msg` is decorated with. */
  const SlackPolicy := Policy(5, 10, 2)

  function Pow(b: nat, k: nat): nat {
    if k == 0 then 1 else b * Pow(b, k - 1)
  }

  /** The wait after the failure of attempt `k` (counting from 0). */
  function Delay(p: Policy, k: nat): nat {
    p.delay * Pow(p.backoff, k)
  }

  /** The waits after the first `n` failures. */
  function Delays(p: Policy, n: nat): (r: seq<nat>)
    ensures |r| == n
  {
    seq(n, k requires 0 <= k < n => Delay(p, k))
  }

  function Sum(s: seq<nat>): nat {
    if |s| == 0 then 0 else Sum(s[..|s| - 1]) + s[|s| - 1]
  }

  /** Attempts made from attempt `k` on, when attempt `i` ends with `respond(i)`. */
  function AttemptsFrom(respond: nat -> Outcome, tries: nat, k: nat): (r: nat)
    requires k < tries
    ensures k < r <= tries
    decreases tries - k
  {
    if respond(k).SlackApiError? && k + 1 < tries then AttemptsFrom(respond, tries, k + 1) else k + 1
  }

  /** How many times `deliver_message` is called. */
  function Attempts(respond: nat -> Outcome, tries: nat): (r: nat)
    ensures r <= tries
    ensures tries > 0 <==> r >= 1
  {
    if tries == 0 then 0 else AttemptsFrom(respond, tries, 0)
  }

  /** How the call ends: the outcome of the last attempt, unless it succeeded. */
  function Result(respond: nat -> Outcome, tries: nat): (r: Ending)
    ensures tries == 0 ==> r == Returned
    ensures r.Raised? ==> !r.error.Sent? && r.error == respond(Attempts(respond, tries) - 1)
    ensures r == Returned <==> tries == 0 || respond(Attempts(respond, tries) - 1).Sent?
  {
    var n := Attempts(respond, tries);
    if n == 0 then Returned
    else match respond(n - 1)
      case Sent => Returned
      case e => Raised(e)
  }

  lemma {:induction false} AttemptsFromSpec(respond: nat -> Outcome, tries: nat, k: nat)
    requires k < tries
    ensures var n := AttemptsFrom(respond, tries, k);
      && k < n <= tries
      && (forall i :: k <= i < n - 1 ==> respond(i).SlackApiError?)
      && (n == tries || !respond(n - 1).SlackApiError?)
    decreases tries - k
  {
    if respond(k).SlackApiError? && k + 1 < tries {
      AttemptsFromSpec(respond, tries, k + 1);
    }
  }

  /** The attempts go on exactly while they fail with a Slack API error: every
      attempt but the last failed that way, and the last is either the final
      try or ended otherwise.  At least one attempt is made when any is allowed. */
  lemma AttemptsSpec(respond: nat -> Outcome, tries: nat)
    ensures var n := Attempts(respond, tries);
      && n <= tries && (tries > 0 ==> n >= 1)
      && (forall i :: 0 <= i < n - 1 ==> respond(i).SlackApiError?)
      && (n > 0 ==> n == tries || !respond(n - 1).SlackApiError?)
  {
    if tries > 0 {
      AttemptsFromSpec(respond, tries, 0);
    }
  }

  /** Attempts before `k` that all failed with a Slack API error leave the count unchanged. */
  lemma AttemptsFromStep(respond: nat -> Outcome, tries: nat, k: nat)
    requires k + 1 < tries && respond(k).SlackApiError?
    ensures AttemptsFrom(respond, tries, k) == AttemptsFrom(respond, tries, k + 1)
  {
  }

  /** The retry loop.  `respond(i)` is what the `i`-th call of `deliver_message`
      does; every call is recorded with its arguments, every wait in seconds. */
  method RetryDeliver(p: Policy, channel: string, subject: string, body: string, file: Option<Bytes>,
                      respond: nat -> Outcome)
    returns (ending: Ending, calls: seq<ApiCall>, waits: seq<nat>)
    ensures |calls| == Attempts(respond, p.tries)
    ensures forall i :: 0 <= i < |calls| ==> calls[i] == DeliverMessage(channel, subject, body, file)
    ensures waits == Delays(p, if |calls| == 0 then 0 else |calls| - 1)
    ensures ending == Result(respond, p.tries)
  {
    var left: nat := p.tries;
    var wait := p.delay;
    calls := [];
    waits := [];
    while left > 0
      invariant left + |calls| == p.tries
      invariant left > 0 || p.tries == 0
      invariant waits == Delays(p, |calls|)
      invariant wait == Delay(p, |calls|)
      invariant forall i :: 0 <= i < |calls| ==> calls[i] == DeliverMessage(channel, subject, body, file)
      invariant left > 0 ==> Attempts(respond, p.tries) == AttemptsFrom(respond, p.tries, |calls|)
      decreases left
    {
      var k := |calls|;
      var outcome := respond(k);
      assert Attempts(respond, p.tries) == AttemptsFrom(respond, p.tries, k);
      calls := calls + [DeliverMessage(channel, subject, body, file)];
      if !outcome.SlackApiError? {
        assert AttemptsFrom(respond, p.tries, k) == k + 1;
        ending := if outcome.Sent? then Returned else Raised(outcome);
        return;
      }
      left := left - 1;
      if left == 0 {
        assert AttemptsFrom(respond, p.tries, k) == k + 1;
        ending := Raised(outcome);
        return;
      }
      AttemptsFromStep(respond, p.tries, k);
      waits := waits + [wait];
      wait := wait * p.backoff;
    }
    ending := Returned;
  }

  /** `deliver_slack_msg` with its policy: five tries, ten seconds, doubling. */
  method DeliverSlackMsg(channel: string, subject: string, body: string, file: Option<Bytes>,
                         respond: nat -> Outcome)
    returns (ending: Ending, calls: seq<ApiCall>, waits: seq<nat>)
    ensures |calls| == Attempts(respond, SlackPolicy.tries) && 1 <= |calls| <= 5
    ensures forall i :: 0 <= i < |calls| ==> calls[i] == DeliverMessage(channel, subject, body, file)
    ensures waits == Delays(SlackPolicy, |calls| - 1)
    ensures ending == Result(respond, SlackPolicy.tries)
  {
    ending, calls, waits := RetryDeliver(SlackPolicy, channel, subject, body, file, respond);
  }

  // ---------------------------------------------------------------- properties

  lemma SlackDelays()
    ensures Delays(SlackPolicy, 4) == [10, 20, 40, 80]
  {
    assert Pow(2, 3) == 8;
  }

  /** At most five calls; the waits are the first of 10, 20, 40 and 80 seconds,
      so a caller blocks for at most 150 seconds in all. */
  lemma SlackBounds(respond: nat -> Outcome)
    ensures var n := Attempts(respond, SlackPolicy.tries);
      && 1 <= n <= 5
      && Delays(SlackPolicy, n - 1) <= [10, 20, 40, 80]
      && Sum(Delays(SlackPolicy, n - 1)) <= 150
  {
    var n := Attempts(respond, SlackPolicy.tries);
    AttemptsSpec(respond, SlackPolicy.tries);
    SlackDelays();
    var all := [10, 20, 40, 80];
    var d := Delays(SlackPolicy, n - 1);
    assert d == all[..n - 1];
    assert all[..1][..0] == all[..0];
    assert all[..2][..1] == all[..1];
    assert all[..3][..2] == all[..2];
    assert all[..4][..3] == all[..3];
    assert Sum(all[..1]) == 10;
    assert Sum(all[..2]) == 30;
    assert Sum(all[..3]) == 70;
    assert Sum(all[..4]) == 150;
  }

  /** A call that succeeds after Slack API errors ends the retrying: no further
      calls, and the caller sees a normal return. */
  lemma SuccessStops(respond: nat -> Outcome, tries: nat, k: nat)
    requires k < tries && respond(k).Sent?
    requires forall i :: 0 <= i < k ==> respond(i).SlackApiError?
    ensures Attempts(respond, tries) == k + 1 && Result(respond, tries) == Returned
  {
    AttemptsSpec(respond, tries);
  }

  /** Any other error is not retried: it reaches the caller after that call. */
  lemma OtherErrorPropagates(respond: nat -> Outcome, tries: nat, k: nat)
    requires k < tries && respond(k).OtherError?
    requires forall i :: 0 <= i < k ==> respond(i).SlackApiError?
    ensures Attempts(respond, tries) == k + 1 && Result(respond, tries) == Raised(respond(k))
  {
    AttemptsSpec(respond, tries);
  }

  /** When every try fails with a Slack API error, all tries are made and the
      last error reaches the caller. */
  lemma ExhaustedRaisesLast(respond: nat -> Outcome, tries: nat)
    requires tries > 0
    requires forall i :: 0 <= i < tries ==> respond(i).SlackApiError?
    ensures Attempts(respond, tries) == tries && Result(respond, tries) == Raised(respond(tries - 1))
  {
    AttemptsSpec(respond, tries);
  }

  /** Four Slack API errors, then success: five calls, waits of 10, 20, 40 and 80 seconds. */
  lemma FourErrorsThenSuccess(respond: nat -> Outcome)
    requires forall i :: 0 <= i < 4 ==> respond(i).SlackApiError?
    requires respond(4).Sent?
    ensures Attempts(respond, SlackPolicy.tries) == 5 && Result(respond, SlackPolicy.tries) == Returned
    ensures Delays(SlackPolicy, Attempts(respond, SlackPolicy.tries) - 1) == [10, 20, 40, 80]
  {
    SuccessStops(respond, 5, 4);
    SlackDelays();
  }

  /** Five Slack API errors: five calls, then the fifth error reaches the caller. */
  lemma FiveErrors(respond: nat -> Outcome)
    requires forall i :: 0 <= i < 5 ==> respond(i).SlackApiError?
    ensures Attempts(respond, SlackPolicy.tries) == 5
    ensures Result(respond, SlackPolicy.tries) == Raised(respond(4))
  {
    ExhaustedRaisesLast(respond, 5);
  }
}
