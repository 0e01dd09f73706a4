/**
 * The Slack Web API as the backend sees it: the JSON shapes it decodes, the
 * form-encoded requests it posts, and how a decoded response becomes a
 * result. The HTTP exchange itself is not modelled: its outcome is an input
 * (`Exchange`), either the decoded response or the text of the transport or
 * decoding error.
 */
module SlackApi {
  import opened Wrappers

  /** One message of a `conversations.history` / `conversations.replies` answer. */
  datatype SlackMessage = SlackMessage(text: string, user: string, ts: string)

  /** Every Slack response the backend decodes; absent JSON fields are `None`. */
  datatype SlackResponse = SlackResponse(
    ok: bool,
    channel: Option<string>,
    ts: Option<string>,
    messages: Option<seq<SlackMessage>>,
    error: Option<string>)

  /** What one HTTP round trip yields: the decoded body, or the error text of sending or decoding. */
  type Exchange = Result<SlackResponse, string>

  /** A form-encoded body: key/value pairs in the order they are sent. */
  type Form = seq<(string, string)>

  datatype Request = Request(endpoint: string, form: Form)

  const PostMessageUrl: string := "https://slack.com/api/chat.postMessage"
  const HistoryUrl: string := "https://slack.com/api/conversations.history"
  const RepliesUrl: string := "https://slack.com/api/conversations.replies"
  const QueryLimit: string := "100"
  const UnknownError: string := "Unknown error"
  const SendFailedPrefix: string := "Failed to send Slack message: "
  const QueryFailedPrefix: string := "Failed to get Slack messages: "

  /** The keys of a form, in order. */
  function Keys(form: Form): (keys: seq<string>)
    ensures |keys| == |form|
  {
    if |form| == 0 then [] else [form[0].0] + Keys(form[1..])
  }

  /** The value sent under `key`: that of its first occurrence. */
  function Lookup(form: Form, key: string): (v: Option<string>)
    ensures v.Some? <==> key in Keys(form)
  {
    if |form| == 0 then None
    else if form[0].0 == key then Some(form[0].1)
    else Lookup(form[1..], key)
  }

  /** Pushing a field onto a form adds its key at the end and leaves earlier values as they were. */
  lemma {:induction false} FormAppend(form: Form, key: string, value: string)
    ensures Keys(form + [(key, value)]) == Keys(form) + [key]
    ensures forall k :: k in Keys(form) ==> Lookup(form + [(key, value)], k) == Lookup(form, k)
    ensures key !in Keys(form) ==> Lookup(form + [(key, value)], key) == Some(value)
  {
    if |form| > 0 {
      assert (form + [(key, value)])[1..] == form[1..] + [(key, value)];
      FormAppend(form[1..], key, value);
    }
  }

  /** The question as posted: a mention of the designated user, a space, then the question. */
  function MentionText(userId: string, question: string): (text: string)
    ensures |text| == |userId| + |question| + 4
    ensures text[..2] == "<@" && text[2..|userId| + 2] == userId
    ensures text[|userId| + 2..|userId| + 4] == "> " && text[|userId| + 4..] == question
  {
    "<@" + userId + "> " + question
  }

  /** The question a posted text carries for `userId`, if it has the mention prefix. */
  function QuestionOf(userId: string, text: string): Option<string> {
    var prefix := "<@" + userId + "> ";
    if |prefix| <= |text| && text[..|prefix|] == prefix then Some(text[|prefix|..]) else None
  }

  /** The mention prefix can be taken off again, and only texts built by `MentionText` carry it. */
  lemma MentionRoundTrip(userId: string, question: string, text: string)
    ensures QuestionOf(userId, MentionText(userId, question)) == Some(question)
    ensures QuestionOf(userId, text) == Some(question) ==> MentionText(userId, question) == text
  {
    var prefix := "<@" + userId + "> ";
    assert MentionText(userId, question) == prefix + question;
    assert (prefix + question)[..|prefix|] == prefix;
    if QuestionOf(userId, text) == Some(question) {
      assert text == text[..|prefix|] + text[|prefix|..];
    }
  }

  /** The body of `chat.postMessage`: `thread_ts` is sent only when replying in a thread. */
  function PostForm(token: string, channel: string, text: string, threadTs: Option<string>): (form: Form)
    ensures Keys(form) == ["token", "channel", "text"] + (if threadTs.Some? then ["thread_ts"] else [])
    ensures Lookup(form, "token") == Some(token)
    ensures Lookup(form, "channel") == Some(channel)
    ensures Lookup(form, "text") == Some(text)
    ensures Lookup(form, "thread_ts") == threadTs
  {
    FormAppend([], "token", token);
    var f1 := [("token", token)];
    FormAppend(f1, "channel", channel);
    var f2 := f1 + [("channel", channel)];
    FormAppend(f2, "text", text);
    var base := f2 + [("text", text)];
    match threadTs
    case Some(ts) =>
      FormAppend(base, "thread_ts", ts);
      base + [("thread_ts", ts)]
    case None => base
  }

  /** The fields every history/replies query sends, in order. */
  function QueryBase(token: string, channel: string, afterTs: string): Form {
    [("token", token), ("channel", channel), ("oldest", afterTs), ("limit", QueryLimit)]
  }

  /** The body of a history/replies query: `ts` is sent only for a thread. */
  function QueryForm(token: string, channel: string, afterTs: string, threadTs: Option<string>): Form {
    var base := QueryBase(token, channel, afterTs);
    match threadTs
    case Some(ts) => base + [("ts", ts)]
    case None => base
  }

  /** The fixed part of a query carries its four keys in order, each with its own value, and no `ts`. */
  lemma {:induction false} QueryBaseFields(token: string, channel: string, afterTs: string)
    ensures Keys(QueryBase(token, channel, afterTs)) == ["token", "channel", "oldest", "limit"]
    ensures Lookup(QueryBase(token, channel, afterTs), "token") == Some(token)
    ensures Lookup(QueryBase(token, channel, afterTs), "channel") == Some(channel)
    ensures Lookup(QueryBase(token, channel, afterTs), "oldest") == Some(afterTs)
    ensures Lookup(QueryBase(token, channel, afterTs), "limit") == Some(QueryLimit)
    ensures Lookup(QueryBase(token, channel, afterTs), "ts") == None
  {
    var f4 := QueryBase(token, channel, afterTs);
    var f3 := [("channel", channel), ("oldest", afterTs), ("limit", QueryLimit)];
    var f2 := [("oldest", afterTs), ("limit", QueryLimit)];
    var f1 := [("limit", QueryLimit)];
    assert f4[1..] == f3 && f3[1..] == f2 && f2[1..] == f1 && f1[1..] == [];
    assert Keys(f1) == ["limit"];
    assert Keys(f2) == ["oldest", "limit"];
    assert Keys(f3) == ["channel", "oldest", "limit"];
    assert "limit"[0] != "token"[0] && "ts"[1] != "token"[1];
    assert Lookup(f2, "oldest") == Some(afterTs);
    assert Lookup(f1, "limit") == Some(QueryLimit);
    assert Lookup(f2, "limit") == Some(QueryLimit);
    assert Lookup(f3, "limit") == Some(QueryLimit);
  }

  /** The query sends token, channel, oldest and limit in that order, then `ts` exactly when a thread is given. */
  lemma QueryFormFields(token: string, channel: string, afterTs: string, threadTs: Option<string>)
    ensures Keys(QueryForm(token, channel, afterTs, threadTs)) ==
              ["token", "channel", "oldest", "limit"] + (if threadTs.Some? then ["ts"] else [])
    ensures Lookup(QueryForm(token, channel, afterTs, threadTs), "token") == Some(token)
    ensures Lookup(QueryForm(token, channel, afterTs, threadTs), "channel") == Some(channel)
    ensures Lookup(QueryForm(token, channel, afterTs, threadTs), "oldest") == Some(afterTs)
    ensures Lookup(QueryForm(token, channel, afterTs, threadTs), "limit") == Some(QueryLimit)
    ensures Lookup(QueryForm(token, channel, afterTs, threadTs), "ts") == threadTs
  {
    QueryBaseFields(token, channel, afterTs);
    if threadTs.Some? {
      FormAppend(QueryBase(token, channel, afterTs), "ts", threadTs.value);
    }
  }

  /** A thread is read with `conversations.replies`, the channel with `conversations.history`. */
  function QueryEndpoint(threadTs: Option<string>): string {
    if threadTs.Some? then RepliesUrl else HistoryUrl
  }

  /** The endpoint is `conversations.replies` exactly when a thread is given, and `conversations.history` exactly when none is. */
  lemma QueryEndpointChoice(threadTs: Option<string>)
    ensures QueryEndpoint(threadTs) == RepliesUrl <==> threadTs.Some?
    ensures QueryEndpoint(threadTs) == HistoryUrl <==> threadTs.None?
  {
    assert RepliesUrl[36] != HistoryUrl[36];
  }

  function PostRequest(token: string, channel: string, text: string, threadTs: Option<string>): Request {
    Request(PostMessageUrl, PostForm(token, channel, text, threadTs))
  }

  function QueryRequest(token: string, channel: string, afterTs: string, threadTs: Option<string>): Request {
    Request(QueryEndpoint(threadTs), QueryForm(token, channel, afterTs, threadTs))
  }

  /** The Slack error code of a failed response, or a stand-in when Slack gave none. */
  function ErrorCode(resp: SlackResponse): string {
    resp.error.GetOr(UnknownError)
  }

  /** A decoded `chat.postMessage` response as the sent message's `ts`, or an error. */
  function SendResult(resp: SlackResponse): (r: Result<string, string>)
    ensures r.Success? <==> resp.ok
    ensures resp.ok && resp.ts.Some? ==> r.value == resp.ts.value
    ensures resp.ok && resp.ts.None? ==> r.value == ""
    ensures !resp.ok ==> |SendFailedPrefix| <= |r.error| && r.error[..|SendFailedPrefix|] == SendFailedPrefix
    ensures !resp.ok && resp.error.Some? ==> r.error[|SendFailedPrefix|..] == resp.error.value
    ensures !resp.ok && resp.error.None? ==> r.error[|SendFailedPrefix|..] == UnknownError
  {
    if !resp.ok then Failure(SendFailedPrefix + ErrorCode(resp))
    else Success(resp.ts.GetOr(""))
  }

  /** A decoded history/replies response as its messages, or an error. */
  function MessagesResult(resp: SlackResponse): (r: Result<seq<SlackMessage>, string>)
    ensures r.Success? <==> resp.ok
    ensures resp.ok && resp.messages.Some? ==> r.value == resp.messages.value
    ensures resp.ok && resp.messages.None? ==> r.value == []
    ensures !resp.ok ==> |QueryFailedPrefix| <= |r.error| && r.error[..|QueryFailedPrefix|] == QueryFailedPrefix
    ensures !resp.ok && resp.error.Some? ==> r.error[|QueryFailedPrefix|..] == resp.error.value
    ensures !resp.ok && resp.error.None? ==> r.error[|QueryFailedPrefix|..] == UnknownError
  {
    if !resp.ok then Failure(QueryFailedPrefix + ErrorCode(resp))
    else Success(resp.messages.GetOr([]))
  }

  /** `send_message` after the round trip: transport errors pass through unchanged. */
  function SendOutcome(x: Exchange): Result<string, string> {
    match x
    case Failure(e) => Failure(e)
    case Success(resp) => SendResult(resp)
  }

  /** `get_messages_after` after the round trip: transport errors pass through unchanged. */
  function QueryOutcome(x: Exchange): Result<seq<SlackMessage>, string> {
    match x
    case Failure(e) => Failure(e)
    case Success(resp) => MessagesResult(resp)
  }
}
