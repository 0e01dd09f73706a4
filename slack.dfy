/**
 * The Slack backend object. `threadTs` is the one field that changes: it is
 * empty until the first question is posted and then holds that message's
 * `ts` for good, so every later question goes to the same thread. The HTTP
 * round trips are inputs: `Exchange` values for the post, and `env(j)` for
 * the j-th poll of a wait.
 */
module Slack {
  import opened Wrappers
  import opened Lexical
  import opened SlackApi
  import opened ReplyWait

  /** `n` copies of `x`. */
  function Repeat<T>(x: T, n: nat): (s: seq<T>)
    ensures |s| == n && forall i | 0 <= i < n :: s[i] == x
  {
    if n == 0 then [] else Repeat(x, n - 1) + [x]
  }

  /** Rust's `u32`, the type of the retry counter. */
  newtype u32 = x: int | 0 <= x < 0x1_0000_0000

  class HumanInSlack {
    const token: string
    const channelId: string
    const userId: string
    var threadTs: Option<string>

    constructor (token: string, channelId: string, userId: string)
      ensures this.token == token && this.channelId == channelId && this.userId == userId
      ensures threadTs == None
    {
      this.token := token;
      this.channelId := channelId;
      this.userId := userId;
      threadTs := None;
    }

    /** `send_message`: the `chat.postMessage` request, and the sent message's `ts` or the error the round trip gave. */
    method SendMessage(text: string, thread: Option<string>, exchange: Exchange) returns (request: Request, sent: Result<string, string>)
      ensures request == PostRequest(token, channelId, text, thread)
      ensures exchange.Failure? ==> sent == Failure(exchange.error)
      ensures exchange.Success? ==> sent == SendResult(exchange.value)
    {
      var form := [("token", token), ("channel", channelId), ("text", text)];
      if thread.Some? {
        form := form + [("thread_ts", thread.value)];
      }
      request := Request(PostMessageUrl, form);
      match exchange
      case Failure(e) =>
        sent := Failure(e);
      case Success(resp) =>
        sent := SendResult(resp);
    }

    /** `get_messages_after`: the history or replies query, and the messages or the error the round trip gave. */
    method GetMessagesAfter(afterTs: string, thread: Option<string>, exchange: Exchange)
      returns (request: Request, messages: Result<seq<SlackMessage>, string>)
      ensures request == QueryRequest(token, channelId, afterTs, thread)
      ensures messages == QueryOutcome(exchange)
    {
      var form := [("token", token), ("channel", channelId), ("oldest", afterTs), ("limit", QueryLimit)];
      if thread.Some? {
        form := form + [("ts", thread.value)];
      }
      var endpoint := if thread.Some? then RepliesUrl else HistoryUrl;
      request := Request(endpoint, form);
      match exchange
      case Failure(e) =>
        messages := Failure(e);
      case Success(resp) =>
        messages := MessagesResult(resp);
    }

    /** The scan of one batch of messages: the text of the first one that answers the question sent at `afterTs`. */
    method FindReply(messages: seq<SlackMessage>, afterTs: string) returns (reply: Option<string>)
      ensures reply.Some? <==> exists j :: 0 <= j < |messages| && IsReply(messages[j], userId, afterTs)
      ensures reply == ReplyText(messages, userId, afterTs)
    {
      for i := 0 to |messages|
        invariant forall j :: 0 <= j < i ==> !IsReply(messages[j], userId, afterTs)
      {
        if messages[i].user == userId && StrLess(afterTs, messages[i].ts) {
          return Some(messages[i].text);
        }
      }
      return None;
    }

    /**
     * One turn of the poll loop up to its sleep: the query, and what its
     * outcome means for the wait (the first reply among the messages, no
     * reply, a rate limit, or an error that ends the wait).
     */
    method Poll(afterTs: string, thread: Option<string>, exchange: Exchange) returns (request: Request, step: PollResult)
      ensures request == QueryRequest(token, channelId, afterTs, thread)
      ensures step == Classify(exchange, userId, afterTs)
    {
      var messages;
      request, messages := GetMessagesAfter(afterTs, thread, exchange);
      match messages {
        case Success(msgs) =>
          var reply := FindReply(msgs, afterTs);
          step := if reply.Some? then Answer(reply.value) else NoReply;
        case Failure(e) =>
          step := if IsRateLimited(e) then RateLimited else Fatal(e);
      }
    }

    /**
     * The poll loop's bookkeeping after a query that lets the wait go on: a
     * success resets the counter and the interval, a rate limit raises the
     * counter and backs the interval off.
     */
    method NextInterval(step: PollResult, retryCount: u32) returns (nextCount: u32, pollInterval: nat)
      requires Continues(step) && retryCount < 30
      ensures nextCount as nat == NextRetry(retryCount as nat, step)
      ensures pollInterval == Backoff(nextCount as nat)
    {
      if step.NoReply? {
        pollInterval := InitialPollInterval;
        nextCount := 0;
      } else {
        nextCount := retryCount + 1;
        pollInterval := Backoff(nextCount as nat);
      }
    }

    /**
     * `wait_for_reply`: poll until the designated user answers the message
     * sent at `afterTs`, a query fails for a reason other than a rate limit,
     * or the clock reaches the 300 s ceiling. Also returns the number of
     * polls, the clock at the end and, as a ghost, the request each poll sent.
     */
    method WaitForReply(afterTs: string, thread: Option<string>, env: nat -> Exchange)
      returns (result: Result<string, string>, polls: nat, elapsed: nat, ghost queries: seq<Request>)
      ensures queries == Repeat(QueryRequest(token, channelId, afterTs, thread), polls)
      ensures result == WaitResult(Wait(userId, afterTs, env).outcome)
      ensures polls == Wait(userId, afterTs, env).polls && elapsed == Wait(userId, afterTs, env).elapsed
    {
      var pollInterval: nat := InitialPollInterval;
      var retryCount: u32 := 0;
      var clock: nat := 0;
      var outcome := TimedOut;
      polls := 0;
      queries := [];
      ghost var steps := Classified(userId, afterTs, env);
      while clock < MaxWait
        invariant Wait(userId, afterTs, env) == Run(steps, polls, clock, retryCount as nat)
        invariant pollInterval == Backoff(retryCount as nat)
        invariant 10 * polls <= clock && retryCount as nat <= polls
        invariant polls == 0 ==> clock == 0
        invariant queries == Repeat(QueryRequest(token, channelId, afterTs, thread), polls)
        decreases MaxWait + MaxPollInterval - clock
      {
        var request, step := Poll(afterTs, thread, env(polls));
        queries := queries + [request];
        ghost var k, retried := polls, retryCount as nat;
        assert steps(k) == step;
        polls := polls + 1;
        if step.Answer? {
          RunStops(steps, k, clock, retried);
          outcome := Replied(step.text);
          break;
        } else if step.Fatal? {
          RunStops(steps, k, clock, retried);
          outcome := Failed(step.error);
          break;
        }
        retryCount, pollInterval := NextInterval(step, retryCount);
        RunContinues(steps, k, clock, retried, retryCount as nat, pollInterval);
        clock := clock + pollInterval;
      }
      elapsed := if outcome.TimedOut? then MaxWait else clock;
      assert Wait(userId, afterTs, env) == WaitRun(outcome, polls, elapsed);
      result := WaitResult(outcome);
    }

    /**
     * `ask`: post the question mentioning the designated user, into the
     * thread if there is one; the first successful post opens the thread.
     * Then wait for the reply to the message just posted: every query of the
     * wait reads that thread with `conversations.replies`.
     */
    method Ask(question: string, sendExchange: Exchange, env: nat -> Exchange)
      returns (post: Request, ghost queries: seq<Request>, answer: Result<string, string>)
      modifies this
      ensures post == PostRequest(token, channelId, MentionText(userId, question), old(threadTs))
      ensures old(threadTs).Some? ==> threadTs == old(threadTs)
      ensures SendOutcome(sendExchange).Failure? ==>
                threadTs == old(threadTs) && queries == [] && answer == Failure(SendOutcome(sendExchange).error)
      ensures SendOutcome(sendExchange).Success? ==>
                var sentTs := SendOutcome(sendExchange).value;
                (old(threadTs).None? ==> threadTs == Some(sentTs)) && threadTs.Some? &&
                1 <= |queries| == Wait(userId, sentTs, env).polls &&
                (forall i | 0 <= i < |queries| ::
                   queries[i] == QueryRequest(token, channelId, sentTs, threadTs) && queries[i].endpoint == RepliesUrl) &&
                answer == WaitResult(Wait(userId, sentTs, env).outcome)
    {
      var text := MentionText(userId, question);
      var sent;
      if threadTs.Some? {
        post, sent := SendMessage(text, threadTs, sendExchange);
      } else {
        post, sent := SendMessage(text, None, sendExchange);
        if sent.Success? {
          threadTs := Some(sent.value);
        }
      }
      if sent.Failure? {
        return post, [], Failure(sent.error);
      }
      var result, polls, elapsed;
      result, polls, elapsed, queries := WaitForReply(sent.value, threadTs, env);
      WaitBounds(userId, sent.value, env);
      QueryEndpointChoice(threadTs);
      answer := result;
    }
  }

  /**
   * Two questions on a fresh backend: the first is posted to the channel and
   * opens the thread with its `ts`, and its own wait already reads that
   * thread; the second is posted into that thread, and its wait reads that
   * thread for replies newer than the second post.
   */
  method AskTwice(token: string, channelId: string, userId: string, first: string, second: string,
                  send1: Exchange, send2: Exchange, env1: nat -> Exchange, env2: nat -> Exchange)
    returns (post1: Request, post2: Request, ghost queries1: seq<Request>, ghost queries2: seq<Request>)
    requires SendOutcome(send1).Success?
    ensures Lookup(post1.form, "thread_ts") == None
    ensures Lookup(post2.form, "thread_ts") == Some(SendOutcome(send1).value)
    ensures Lookup(post2.form, "text") == Some(MentionText(userId, second))
    ensures |queries1| >= 1
    ensures forall i | 0 <= i < |queries1| ::
              queries1[i].endpoint == RepliesUrl &&
              Lookup(queries1[i].form, "ts") == Some(SendOutcome(send1).value) &&
              Lookup(queries1[i].form, "oldest") == Some(SendOutcome(send1).value)
    ensures SendOutcome(send2).Success? ==>
              |queries2| >= 1 &&
              forall i | 0 <= i < |queries2| ::
                queries2[i].endpoint == RepliesUrl &&
                Lookup(queries2[i].form, "ts") == Some(SendOutcome(send1).value) &&
                Lookup(queries2[i].form, "oldest") == Some(SendOutcome(send2).value)
  {
    var human := new HumanInSlack(token, channelId, userId);
    var answer1, answer2;
    post1, queries1, answer1 := human.Ask(first, send1, env1);
    QueryFormFields(token, channelId, SendOutcome(send1).value, Some(SendOutcome(send1).value));
    post2, queries2, answer2 := human.Ask(second, send2, env2);
    if SendOutcome(send2).Success? {
      QueryFormFields(token, channelId, SendOutcome(send2).value, Some(SendOutcome(send1).value));
    }
  }
}
