/**
 * The reply-correlation and wait rules of the Slack backend, as functions:
 * which message is the answer, how the poll interval backs off and resets,
 * which errors end the wait, and `Run`, the whole poll loop under its
 * 300-second ceiling. The imperative loop in `Slack.HumanInSlack.WaitForReply`
 * is proved to compute `Wait`.
 *
 * Time is the sum of the sleeps between polls; a query itself takes no time.
 * A query is made only while that clock is below the ceiling, since one
 * started at the deadline cannot return before the timeout fires.
 */
module ReplyWait {
  import opened Wrappers
  import opened Lexical
  import opened SlackApi

  const MaxWait: nat := 300
  const InitialPollInterval: nat := 10
  const MaxPollInterval: nat := 30
  const RateLimitedMarker: string := "ratelimited"
  const TimeoutMessage: string := "Timeout waiting for human reply in Slack"

  /** The correlation rule: written by the designated user, and strictly later than the question. */
  predicate IsReply(m: SlackMessage, userId: string, afterTs: string) {
    m.user == userId && StrLess(afterTs, m.ts)
  }

  /**
   * "Strictly later" in other words: a message from the user qualifies unless
   * its `ts` equals the question's (an echo) or orders before it.
   */
  lemma IsReplyIff(m: SlackMessage, userId: string, afterTs: string)
    ensures IsReply(m, userId, afterTs) <==>
              m.user == userId && m.ts != afterTs && !StrLess(m.ts, afterTs)
  {
    StrLessIrreflexive(afterTs);
    StrLessTotal(afterTs, m.ts);
    if StrLess(afterTs, m.ts) {
      StrLessAsymmetric(afterTs, m.ts);
    }
  }

  /** The index of the first qualifying message, in the order Slack returned them. */
  function FirstReply(msgs: seq<SlackMessage>, userId: string, afterTs: string): (r: Option<nat>)
    ensures r.Some? ==> r.value < |msgs| && IsReply(msgs[r.value], userId, afterTs)
    ensures r.Some? ==> forall j :: 0 <= j < r.value ==> !IsReply(msgs[j], userId, afterTs)
    ensures r.None? ==> forall j :: 0 <= j < |msgs| ==> !IsReply(msgs[j], userId, afterTs)
  {
    if |msgs| == 0 then None
    else if IsReply(msgs[0], userId, afterTs) then Some(0)
    else
      match FirstReply(msgs[1..], userId, afterTs)
      case Some(i) => Some(i + 1)
      case None => None
  }

  /** The text of the first qualifying message, if any. */
  function ReplyText(msgs: seq<SlackMessage>, userId: string, afterTs: string): Option<string> {
    match FirstReply(msgs, userId, afterTs)
    case Some(i) => Some(msgs[i].text)
    case None => None
  }

  /** Once a qualifying message is found, messages after it cannot change the answer. */
  lemma FirstReplyIgnoresLater(msgs: seq<SlackMessage>, later: seq<SlackMessage>, userId: string, afterTs: string)
    requires FirstReply(msgs, userId, afterTs).Some?
    ensures FirstReply(msgs + later, userId, afterTs) == FirstReply(msgs, userId, afterTs)
  {
    var i := FirstReply(msgs, userId, afterTs).value;
    var all := msgs + later;
    assert all[i] == msgs[i];
    assert forall j :: 0 <= j < i ==> all[j] == msgs[j];
  }

  /** Non-qualifying messages before the answer are skipped over. */
  lemma FirstReplySkips(skipped: seq<SlackMessage>, rest: seq<SlackMessage>, userId: string, afterTs: string)
    requires forall j :: 0 <= j < |skipped| ==> !IsReply(skipped[j], userId, afterTs)
    ensures FirstReply(skipped + rest, userId, afterTs) ==
              match FirstReply(rest, userId, afterTs)
              case Some(i) => Some(|skipped| + i)
              case None => None
  {
    var all := skipped + rest;
    assert forall j :: 0 <= j < |skipped| ==> all[j] == skipped[j];
    assert forall j :: 0 <= j < |rest| ==> all[|skipped| + j] == rest[j];
    match FirstReply(rest, userId, afterTs)
    case Some(i) =>
      assert IsReply(all[|skipped| + i], userId, afterTs);
    case None =>
      assert forall j :: |skipped| <= j < |all| ==> all[j] == rest[j - |skipped|];
  }

  function Pow2(n: nat): (r: nat)
    ensures r >= 1
  {
    if n == 0 then 1 else 2 * Pow2(n - 1)
  }

  function Min(a: nat, b: nat): nat {
    if a <= b then a else b
  }

  /**
   * The poll interval after `retryCount` consecutive rate-limited queries:
   * 10 s doubled per retry (the exponent capped at 3), capped at 30 s.
   */
  function Backoff(retryCount: nat): (interval: nat)
    ensures InitialPollInterval <= interval <= MaxPollInterval
    ensures retryCount == 0 ==> interval == InitialPollInterval
    ensures retryCount == 1 ==> interval == 2 * InitialPollInterval
    ensures retryCount >= 2 ==> interval == MaxPollInterval
  {
    Min(10 * Pow2(Min(retryCount, 3)), MaxPollInterval)
  }

  /** The only error text inspected: does it mention a rate limit? */
  predicate IsRateLimited(error: string) {
    Contains(error, RateLimitedMarker)
  }

  /**
   * A failed history/replies response is treated as a rate limit exactly
   * when its Slack error code mentions one (the fixed prefix never does).
   */
  lemma QueryErrorRateLimited(code: string)
    ensures IsRateLimited(QueryFailedPrefix + code) <==> Contains(code, RateLimitedMarker)
  {
    var p := RateLimitedMarker;
    assert ' ' !in p;
    assert QueryFailedPrefix + code == "Failed" + [' '] + ("to" + [' '] + ("get" + [' '] + ("Slack" + [' '] + ("messages:" + [' '] + code))));
    ContainsAcross("Failed", ' ', "to" + [' '] + ("get" + [' '] + ("Slack" + [' '] + ("messages:" + [' '] + code))), p);
    ContainsAcross("to", ' ', "get" + [' '] + ("Slack" + [' '] + ("messages:" + [' '] + code)), p);
    ContainsAcross("get", ' ', "Slack" + [' '] + ("messages:" + [' '] + code), p);
    ContainsAcross("Slack", ' ', "messages:" + [' '] + code, p);
    ContainsAcross("messages:", ' ', code, p);
  }

  /** What one completed query means for the wait. */
  datatype PollResult =
    | Answer(text: string)   // a qualifying message was found
    | Fatal(error: string)   // an error that ends the wait
    | NoReply                // a successful query without a qualifying message
    | RateLimited            // an error that only backs off

  predicate Continues(p: PollResult) {
    p.NoReply? || p.RateLimited?
  }

  function Classify(x: Exchange, userId: string, afterTs: string): PollResult {
    match QueryOutcome(x)
    case Success(msgs) =>
      (match ReplyText(msgs, userId, afterTs)
       case Some(text) => Answer(text)
       case None => NoReply)
    case Failure(e) => if IsRateLimited(e) then RateLimited else Fatal(e)
  }

  /** A failed response backs off exactly when Slack's error code mentions a rate limit, and ends the wait otherwise. */
  lemma ClassifyFailedResponse(resp: SlackResponse, userId: string, afterTs: string)
    requires !resp.ok
    ensures Contains(ErrorCode(resp), RateLimitedMarker) ==> Classify(Success(resp), userId, afterTs) == RateLimited
    ensures !Contains(ErrorCode(resp), RateLimitedMarker) ==>
              Classify(Success(resp), userId, afterTs) == Fatal(QueryFailedPrefix + ErrorCode(resp))
  {
    QueryErrorRateLimited(ErrorCode(resp));
  }

  /** A failed response without an error code ends the wait with "Unknown error". */
  lemma MissingErrorCodeIsFatal(resp: SlackResponse, userId: string, afterTs: string)
    requires !resp.ok && resp.error.None?
    ensures Classify(Success(resp), userId, afterTs) == Fatal(QueryFailedPrefix + UnknownError)
  {
    assert UnknownError == "Unknown" + [' '] + "error";
    ContainsAcross("Unknown", ' ', "error", RateLimitedMarker);
    ClassifyFailedResponse(resp, userId, afterTs);
  }

  /** The retry counter after a query that lets the wait go on: reset by success, raised by a rate limit. */
  function NextRetry(retryCount: nat, p: PollResult): (next: nat)
    requires Continues(p)
    ensures p.NoReply? ==> next == 0 && Backoff(next) == InitialPollInterval
    ensures p.RateLimited? ==> next == retryCount + 1
    ensures p.RateLimited? ==> Backoff(next) == if retryCount == 0 then 2 * InitialPollInterval else MaxPollInterval
  {
    if p.NoReply? then 0 else retryCount + 1
  }

  datatype WaitOutcome = Replied(text: string) | Failed(error: string) | TimedOut

  /** How a wait ended, how many queries had been made in all, and the clock when it ended. */
  datatype WaitRun = WaitRun(outcome: WaitOutcome, polls: nat, elapsed: nat)

  /** What the successive queries of one wait mean: the j-th query is classified as `steps(j)`. */
  type PollStream = nat -> PollResult

  /** The stream a wait sees when query number `j` gets the exchange `env(j)`. */
  function Classified(userId: string, afterTs: string, env: nat -> Exchange): PollStream {
    (j: nat) => Classify(env(j), userId, afterTs)
  }

  /**
   * The poll loop from the state where `k` queries have been made, the clock
   * reads `clock` and `retryCount` rate limits came in a row.
   */
  function Run(steps: PollStream, k: nat, clock: nat, retryCount: nat): WaitRun
    decreases MaxWait - clock
  {
    if clock >= MaxWait then WaitRun(TimedOut, k, MaxWait)
    else
      match steps(k)
      case Answer(text) => WaitRun(Replied(text), k + 1, clock)
      case Fatal(e) => WaitRun(Failed(e), k + 1, clock)
      case NoReply =>
        var next := NextRetry(retryCount, NoReply);
        Run(steps, k + 1, clock + Backoff(next), next)
      case RateLimited =>
        var next := NextRetry(retryCount, RateLimited);
        Run(steps, k + 1, clock + Backoff(next), next)
  }

  /**
   * What every run of the loop satisfies: it never outlasts the ceiling and
   * times out exactly at it; polls are 10 to 30 s apart; a reply or a fatal
   * error comes from the last query made, and every earlier query (every
   * query, for a timeout) found nothing or was rate limited.
   */
  lemma {:induction false} RunProperties(steps: PollStream, k: nat, clock: nat, retryCount: nat)
    ensures var r := Run(steps, k, clock, retryCount);
      && k <= r.polls && r.elapsed <= MaxWait
      && (r.outcome.TimedOut? <==> r.elapsed == MaxWait)
      && (clock >= MaxWait ==> r == WaitRun(TimedOut, k, MaxWait))
      && (clock < MaxWait ==> clock <= r.elapsed && k < r.polls && 10 * (r.polls - k) < MaxWait - clock + 10)
      && (!r.outcome.TimedOut? ==>
            k < r.polls &&
            10 * (r.polls - 1 - k) <= r.elapsed - clock <= 30 * (r.polls - 1 - k))
      && (r.outcome.Replied? ==> steps(r.polls - 1) == Answer(r.outcome.text))
      && (r.outcome.Failed? ==> steps(r.polls - 1) == Fatal(r.outcome.error))
      && (forall j :: k <= j < r.polls && (r.outcome.TimedOut? || j < r.polls - 1) ==> Continues(steps(j)))
    decreases MaxWait - clock
  {
    if clock < MaxWait && Continues(steps(k)) {
      var next := NextRetry(retryCount, steps(k));
      RunProperties(steps, k + 1, clock + Backoff(next), next);
    }
  }

  /** One step of the loop: a query that lets the wait go on sleeps for the next backoff interval. */
  lemma RunContinues(steps: PollStream, k: nat, clock: nat, retryCount: nat, next: nat, interval: nat)
    requires clock < MaxWait && Continues(steps(k))
    requires next == NextRetry(retryCount, steps(k)) && interval == Backoff(next)
    ensures Run(steps, k, clock, retryCount) == Run(steps, k + 1, clock + interval, next)
  {
  }

  /** One step of the loop: a query that answers or fails ends the wait at the current clock. */
  lemma RunStops(steps: PollStream, k: nat, clock: nat, retryCount: nat)
    requires clock < MaxWait
    ensures steps(k).Answer? ==> Run(steps, k, clock, retryCount) == WaitRun(Replied(steps(k).text), k + 1, clock)
    ensures steps(k).Fatal? ==> Run(steps, k, clock, retryCount) == WaitRun(Failed(steps(k).error), k + 1, clock)
  {
  }

  /** The whole wait for a reply to the message sent at `afterTs`. */
  function Wait(userId: string, afterTs: string, env: nat -> Exchange): WaitRun {
    Run(Classified(userId, afterTs, env), 0, 0, 0)
  }

  /** A whole wait makes between 1 and 30 queries and ends by the 300 s ceiling, exactly at it when it times out. */
  lemma WaitBounds(userId: string, afterTs: string, env: nat -> Exchange)
    ensures var r := Wait(userId, afterTs, env);
      && 1 <= r.polls <= 30 && r.elapsed <= MaxWait
      && (r.outcome.TimedOut? <==> r.elapsed == MaxWait)
  {
    RunProperties(Classified(userId, afterTs, env), 0, 0, 0);
  }

  /** A query that let the wait go on: it succeeded without a qualifying message, or it failed with a rate limit. */
  predicate LetsWaitGoOn(x: Exchange, userId: string, afterTs: string) {
    match QueryOutcome(x)
    case Success(msgs) => ReplyText(msgs, userId, afterTs).None?
    case Failure(e) => IsRateLimited(e)
  }

  /**
   * What a finished wait means in terms of its queries: a reply is the first
   * qualifying message of the last query; a failure is the last query's own
   * error, which does not mention a rate limit; and every query before the
   * last one (every query, on a timeout) found nothing or was rate limited.
   */
  lemma WaitOutcomeMeaning(userId: string, afterTs: string, env: nat -> Exchange)
    ensures var r := Wait(userId, afterTs, env);
      && 1 <= r.polls
      && (r.outcome.Replied? ==>
            QueryOutcome(env(r.polls - 1)).Success? &&
            ReplyText(QueryOutcome(env(r.polls - 1)).value, userId, afterTs) == Some(r.outcome.text))
      && (r.outcome.Failed? ==>
            QueryOutcome(env(r.polls - 1)) == Failure(r.outcome.error) && !IsRateLimited(r.outcome.error))
      && (forall j :: 0 <= j < r.polls && (r.outcome.TimedOut? || j < r.polls - 1) ==>
            LetsWaitGoOn(env(j), userId, afterTs))
  {
    var steps := Classified(userId, afterTs, env);
    RunProperties(steps, 0, 0, 0);
    var r := Wait(userId, afterTs, env);
    forall j | 0 <= j < r.polls && (r.outcome.TimedOut? || j < r.polls - 1)
      ensures LetsWaitGoOn(env(j), userId, afterTs)
    {
      assert Continues(steps(j));
    }
  }

  /** The value `wait_for_reply` returns for an outcome; a timeout has its own message. */
  function WaitResult(o: WaitOutcome): (r: Result<string, string>)
  {
    match o
    case Replied(text) => Success(text)
    case Failed(e) => Failure(e)
    case TimedOut => Failure(TimeoutMessage)
  }

  /** Polls that keep finding nothing are made every 10 s until the ceiling. */
  lemma {:induction false} QuietRun(steps: PollStream, k: nat, clock: nat, retryCount: nat)
    requires forall j :: k <= j ==> steps(j) == NoReply
    ensures Run(steps, k, clock, retryCount) ==
              WaitRun(TimedOut, k + (if clock >= MaxWait then 0 else (MaxWait + 9 - clock) / 10), MaxWait)
    decreases MaxWait - clock
  {
    if clock < MaxWait {
      QuietRun(steps, k + 1, clock + InitialPollInterval, 0);
    }
  }

  /** A human who never answers: 30 queries, at 0 s, 10 s, ..., 290 s, then the timeout at 300 s and not before. */
  lemma NoAnswerTimesOut(userId: string, afterTs: string, env: nat -> Exchange)
    requires forall j :: Classify(env(j), userId, afterTs) == NoReply
    ensures Wait(userId, afterTs, env) == WaitRun(TimedOut, 30, MaxWait)
  {
    QuietRun(Classified(userId, afterTs, env), 0, 0, 0);
  }

  /** Once backed off, rate-limited queries are made every 30 s until the ceiling. */
  lemma {:induction false} ThrottledRun(steps: PollStream, k: nat, clock: nat, retryCount: nat)
    requires retryCount >= 1
    requires forall j :: k <= j ==> steps(j) == RateLimited
    ensures Run(steps, k, clock, retryCount) ==
              WaitRun(TimedOut, k + (if clock >= MaxWait then 0 else (MaxWait + 29 - clock) / 30), MaxWait)
    decreases MaxWait - clock
  {
    if clock < MaxWait {
      ThrottledRun(steps, k + 1, clock + MaxPollInterval, retryCount + 1);
    }
  }

  /**
   * A rate limit that never lifts is never reported as such: the queries at
   * 0 s, 20 s, 50 s, ..., 290 s all back off and the wait ends in the timeout.
   */
  lemma PersistentRateLimitTimesOut(userId: string, afterTs: string, env: nat -> Exchange)
    requires forall j :: Classify(env(j), userId, afterTs) == RateLimited
    ensures Wait(userId, afterTs, env) == WaitRun(TimedOut, 11, MaxWait)
  {
    ThrottledRun(Classified(userId, afterTs, env), 1, 2 * InitialPollInterval, 1);
  }

  /** The first query is rate limited, the second holds the answer: it is returned after one 20 s backoff. */
  lemma RateLimitedThenAnswered(userId: string, afterTs: string, env: nat -> Exchange, m: SlackMessage)
    requires env(0) == Success(SlackResponse(false, None, None, None, Some(RateLimitedMarker)))
    requires env(1) == Success(SlackResponse(true, None, None, Some([m]), None))
    requires IsReply(m, userId, afterTs)
    ensures Wait(userId, afterTs, env) == WaitRun(Replied(m.text), 2, 2 * InitialPollInterval)
  {
    assert "" + RateLimitedMarker == RateLimitedMarker;
    ContainsSelf(RateLimitedMarker, "");
    ClassifyFailedResponse(env(0).value, userId, afterTs);
    assert Classify(env(1), userId, afterTs) == Answer(m.text);
  }

  /** A message from someone else comes first; the designated user's later message is the answer. */
  lemma OtherAuthorSkipped(userId: string, afterTs: string, env: nat -> Exchange, other: SlackMessage, reply: SlackMessage)
    requires other.user != userId && IsReply(reply, userId, afterTs)
    requires env(0) == Success(SlackResponse(true, None, None, Some([other, reply]), None))
    ensures Wait(userId, afterTs, env) == WaitRun(Replied(reply.text), 1, 0)
  {
    var msgs := [other, reply];
    assert msgs[1..] == [reply];
    assert FirstReply(msgs, userId, afterTs) == Some(1);
    assert Classify(env(0), userId, afterTs) == Answer(reply.text);
  }

  /** The user's own message with the question's `ts` (an echo) does not answer it. */
  lemma EchoDoesNotAnswer(userId: string, afterTs: string, env: nat -> Exchange, echo: SlackMessage, k: nat)
    requires echo.user == userId && echo.ts == afterTs
    requires env(k) == Success(SlackResponse(true, None, None, Some([echo]), None))
    ensures Classify(env(k), userId, afterTs) == NoReply
  {
    IsReplyIff(echo, userId, afterTs);
  }
}
