# Slack reply-correlation and wait engine, in Dafny

This project models the Slack backend of a "ask a human and wait for the
answer" tool (`src/slack.rs`), and proves properties of that model:

- **Asking.** `ask` posts the question as `<@user> question` with
  `chat.postMessage`. The first question of an instance goes to the channel,
  and its `ts` becomes the thread identity (`thread_ts`, written once). Every
  later question goes into that thread.
- **Waiting.** `ask` then polls for the designated user's reply by querying
  with `conversations.replies` / `conversations.history`, using the posted
  message's `ts` as the lower bound.
- **Poll loop.** A poll that succeeds resets the interval to 10 s. A poll that
  fails with an error mentioning `ratelimited` backs off to
  `min(10·2^min(retry,3), 30)` s. Any other failure ends the wait with that
  error. A 300 s ceiling ends the wait with
  "Timeout waiting for human reply in Slack".
- **Reply qualification.** A message answers only if its author is the
  designated user and its `ts` is strictly greater than the question's in
  Rust's string order. The first such message, in the order Slack returned
  them, wins.

Files (modules):

- `wrappers.dfy` (`Wrappers`): `Option` and `Result`.
- `lexical.dfy` (`Lexical`): the pieces of Rust's `str` the code relies on.
  These are the lexicographic order behind `>` on `&str` (`StrLess`, which is
  not Dafny's `<` on sequences), `str::contains` (`Contains`), and the value
  of digit strings. It also proves that, for timestamps of equal widths,
  string order is numeric order.
- `slack_api.dfy` (`SlackApi`): the JSON shapes (`SlackMessage`,
  `SlackResponse`), the form-encoded requests with their field order and
  endpoints, and the mapping of a decoded response to a result.
- `reply_wait.dfy` (`ReplyWait`): the qualification rule and first match,
  the backoff formula, the classification of one query's outcome, and `Run`
  / `Wait`, the poll loop as a function, with lemmas about every wait.
- `slack.dfy` (`Slack`): the class `HumanInSlack`. Its one mutable field is
  `threadTs`. The imperative methods `SendMessage`, `GetMessagesAfter`,
  `FindReply` (the early-returning scan), `Poll`, `NextInterval`, `WaitForReply` (the loop)
  and `Ask` are each proved against the functions of the other modules.

How the environment is modelled:

- **Network.** An HTTP round trip is an input. An `Exchange` is either the
  decoded `SlackResponse` or the text of a transport or decoding error. The
  post gets one `Exchange` and poll number `j` of a wait gets `env(j)`.
  Errors from sending and decoding are passed through unchanged, as `?` does.
- **Time.** A query takes no time. The clock is the sum of the sleeps
  between polls. A query is made only while the clock is below 300 s, and a
  timeout reports an elapsed time of exactly 300 s.
- **Retry counter.** `retry_count` is Rust's `u32`. The loop uses a `u32`
  newtype and proves that it cannot overflow (it stays below 30).

Two behaviours of the code that a reader might not expect:

- **Which endpoint is polled.** The first `ask` stores `thread_ts` *before*
  it waits, and `src/slack.rs:181` reads the cell again afterwards. So every
  wait, including the very first, reads `conversations.replies` for that
  thread, and in sequential use `conversations.history` is never queried.
  `Ask` proves this for every query it sends: each one has endpoint
  `RepliesUrl`, `ts` set to the thread and `oldest` set to the new message's
  `ts`.
- **A second write to `thread_ts`.** Writing the cell when it is already set
  is not ignored: the code turns it into the error "Failed to set thread
  timestamp" (`src/slack.rs:174-176`). That error cannot arise when calls are
  sequential, because the cell is only set when it is empty; see "Left out".

## Model

| member | source | states |
|---|---|---|
| Lexical.StrLess | src/slack.rs:131 | defined by its body: Rust's `<` on `&str`, character by character, a proper prefix ordering first (the code's `ts > after_ts` is `StrLess(afterTs, ts)`); its properties are stated by `StrLessIff`, `StrLessIrreflexive`, `StrLessTransitive`, `StrLessAsymmetric`, `StrLessTotal`, `StrLessConcat` and `TimestampOrderIsNumeric` |
| Lexical.StrLessIff | src/slack.rs:131 | the `>` used on timestamps is the textbook lexicographic order: a proper prefix, or smaller at the first differing character |
| Lexical.StrLessIrreflexive | src/slack.rs:131 | no `ts` is later than itself |
| Lexical.StrLessTransitive | src/slack.rs:131 | the order on `ts` strings is transitive |
| Lexical.StrLessAsymmetric | src/slack.rs:131 | two `ts` strings are never each later than the other |
| Lexical.StrLessTotal | src/slack.rs:131 | any two different `ts` strings are ordered one way or the other |
| Lexical.StrLessConcat | src/slack.rs:131 | strings whose first parts have equal lengths compare by the first parts, then by the rest |
| Lexical.Contains | src/slack.rs:138 | defined by its body: `str::contains`, the pattern occurs at some position of the text; its properties are stated by `ContainsAcross`, `ContainsSelf` and `ReplyWait.QueryErrorRateLimited` |
| Lexical.ContainsAcross | src/slack.rs:138 | a character the pattern lacks splits a substring search into searches of the two sides |
| Lexical.ContainsSelf | src/slack.rs:138 | a text that ends in the pattern contains it |
| Lexical.DigitOrderIsNumeric | src/slack.rs:131 | for digit strings of one length, string order is numeric order, in both directions |
| Lexical.DigitsValueInjective | src/slack.rs:131 | equal-length digit strings with the same value are the same string |
| Lexical.TimestampOrderIsNumeric | src/slack.rs:131 | for `seconds.micros` timestamps of equal widths, the string comparison is the numeric order of (seconds, micros) |
| SlackApi.FormAppend | src/slack.rs:53-55 | pushing a field adds its key at the end and keeps every earlier value |
| SlackApi.MentionText | src/slack.rs:165 | the posted text is `<@`, the user id, `> `, then the question, with lengths and pieces stated positionally |
| SlackApi.MentionRoundTrip | src/slack.rs:165 | the question can be recovered from the posted text, and only the mention text carries that question |
| SlackApi.PostForm | src/slack.rs:47-55 | the post sends token, channel and text in that order, plus `thread_ts` exactly when a thread is given, with each field's value |
| SlackApi.QueryBase | src/slack.rs:77-82 | defined by its body: the four fields every query starts with, token, channel, oldest and limit "100"; its properties are stated by `QueryBaseFields` |
| SlackApi.QueryForm | src/slack.rs:77-86 | defined by its body: `QueryBase`, with `ts` pushed when a thread is given; its properties are stated by `QueryFormFields` and `Slack.HumanInSlack.GetMessagesAfter` |
| SlackApi.QueryBaseFields | src/slack.rs:77-82 | the fixed part of a query sends token, channel, oldest and limit "100" in that order, each with its value, and no `ts` |
| SlackApi.QueryFormFields | src/slack.rs:77-86 | the query sends token, channel, oldest and limit "100" in that order, plus `ts` exactly when a thread is given, with each field's value |
| SlackApi.QueryEndpoint | src/slack.rs:88-92 | defined by its body: `conversations.replies` when a thread is given, `conversations.history` otherwise; its properties are stated by `QueryEndpointChoice` |
| SlackApi.QueryEndpointChoice | src/slack.rs:88-92 | the endpoint is `conversations.replies` iff a thread is given, and `conversations.history` iff none is |
| SlackApi.PostRequest | src/slack.rs:57-60 | defined by its body: the post goes to `chat.postMessage` with `PostForm` as its body; its properties are stated by `PostForm`, `Slack.HumanInSlack.SendMessage`, `Slack.HumanInSlack.Ask` and `Slack.AskTwice` |
| SlackApi.QueryRequest | src/slack.rs:94-97 | defined by its body: the query goes to `QueryEndpoint` with `QueryForm` as its body; its properties are stated by `QueryFormFields`, `QueryEndpointChoice`, `Slack.HumanInSlack.GetMessagesAfter`, `Slack.HumanInSlack.WaitForReply` and `Slack.HumanInSlack.Ask` |
| SlackApi.ErrorCode | src/slack.rs:69 | defined by its body: Slack's error code, or "Unknown error" when the response has none (the same default at src/slack.rs:106); its properties are stated by `SendResult`, `MessagesResult` and `ReplyWait.MissingErrorCodeIsFatal` |
| SlackApi.SendResult | src/slack.rs:66-73 | success iff `ok`; the sent `ts`, or "" when absent; on failure, the fixed prefix followed by Slack's error code or "Unknown error" |
| SlackApi.MessagesResult | src/slack.rs:103-110 | success iff `ok`; the messages, or the empty list when absent; on failure, the fixed prefix followed by Slack's error code or "Unknown error" |
| SlackApi.SendOutcome | src/slack.rs:57-73 | defined by its body: a transport or decoding error of the post is passed on as is (`?`), a decoded response becomes `SendResult`; what follows from it is stated by `SendResult`, `Slack.HumanInSlack.SendMessage` and `Slack.HumanInSlack.Ask` |
| SlackApi.QueryOutcome | src/slack.rs:94-110 | defined by its body: a transport or decoding error of the query is passed on as is (`?`), a decoded response becomes `MessagesResult`; what follows from it is stated by `MessagesResult`, `ReplyWait.QueryErrorRateLimited`, `ReplyWait.WaitOutcomeMeaning` and `Slack.HumanInSlack.GetMessagesAfter` |
| ReplyWait.IsReply | src/slack.rs:131 | defined by its body: the author is the designated user and the `ts` is greater than the question's in string order; its properties are stated by `IsReplyIff` and `EchoDoesNotAnswer` |
| ReplyWait.IsReplyIff | src/slack.rs:131 | a message qualifies iff it is by the designated user, its `ts` differs from the question's and does not order before it |
| ReplyWait.FirstReply | src/slack.rs:130-134 | the index found is a qualifying message with no qualifying message before it; none is found iff no message qualifies |
| ReplyWait.ReplyText | src/slack.rs:130-134 | defined by its body: the text of the message `FirstReply` finds, if any; its properties are stated by `FirstReply`, `FirstReplyIgnoresLater`, `FirstReplySkips`, `OtherAuthorSkipped` and `Slack.HumanInSlack.FindReply` |
| ReplyWait.FirstReplyIgnoresLater | src/slack.rs:130-133 | once a qualifying message is found, messages appended after the batch cannot change the answer |
| ReplyWait.FirstReplySkips | src/slack.rs:130-134 | non-qualifying messages in front only shift the index of the answer |
| ReplyWait.Backoff | src/slack.rs:138-143 | the interval is always within [10 s, 30 s]; 10 s with no retries, 20 s after the first rate limit, 30 s after any later one |
| ReplyWait.IsRateLimited | src/slack.rs:138 | defined by its body: the error text contains "ratelimited"; its properties are stated by `QueryErrorRateLimited` and `ClassifyFailedResponse` |
| ReplyWait.QueryErrorRateLimited | src/slack.rs:103-107 | a failed query's error mentions a rate limit iff Slack's error code does (the fixed prefix never does) |
| ReplyWait.Classify | src/slack.rs:123-148 | defined by its body: a successful query answers with `ReplyText` or finds nothing, a failed one is a rate limit when `IsRateLimited` holds and fatal otherwise; its properties are stated by `ClassifyFailedResponse`, `MissingErrorCodeIsFatal`, `WaitOutcomeMeaning` and `Slack.HumanInSlack.Poll` |
| ReplyWait.ClassifyFailedResponse | src/slack.rs:136-147 | a non-`ok` response backs off iff Slack's code mentions a rate limit, and otherwise ends the wait with the prefixed error |
| ReplyWait.MissingErrorCodeIsFatal | src/slack.rs:106 | a non-`ok` response with no error code ends the wait with the "Unknown error" message |
| ReplyWait.NextRetry | src/slack.rs:124-143 | a successful query resets the counter to 0 and the interval to 10 s; a rate limit raises the counter by one and sets the interval to 20 s or 30 s |
| ReplyWait.Run | src/slack.rs:118-153 | defined by its body: the loop as a recursion over queries, stopping at the ceiling, on an answer or on a fatal error, and otherwise sleeping `Backoff(NextRetry(..))`; its properties are stated by `RunProperties` and `Slack.HumanInSlack.WaitForReply` |
| ReplyWait.RunProperties | src/slack.rs:118-153 | every run of the loop stays within the ceiling and times out exactly at it, polls 10 to 30 s apart, ends with a reply or fatal error only from its last query, and every earlier query let it go on |
| ReplyWait.Wait | src/slack.rs:113-153 | defined by its body: `Run` from the first query, clock 0 and no retries; its properties are stated by `WaitBounds`, `WaitOutcomeMeaning`, `NoAnswerTimesOut`, `PersistentRateLimitTimesOut`, `RateLimitedThenAnswered` and `Slack.HumanInSlack.WaitForReply` |
| ReplyWait.WaitBounds | src/slack.rs:113-157 | a wait makes 1 to 30 queries and ends by 300 s, exactly at 300 s iff it timed out |
| ReplyWait.WaitOutcomeMeaning | src/slack.rs:118-153 | a reply is the first qualifying message of the last query; a failure is the last query's own non-rate-limit error; every earlier query (every query, on a timeout) found nothing or was rate limited |
| ReplyWait.WaitResult | src/slack.rs:155-158 | defined by its body: a reply is `Ok` with its text, a fatal error is returned as is, a timeout becomes "Timeout waiting for human reply in Slack"; what follows from it is stated by `Slack.HumanInSlack.WaitForReply` and `Slack.HumanInSlack.Ask` |
| ReplyWait.QuietRun | src/slack.rs:124-127 | queries that keep finding nothing are made every 10 s until the ceiling |
| ReplyWait.NoAnswerTimesOut | src/slack.rs:114-157 | a human who never answers gets 30 queries and the timeout at 300 s |
| ReplyWait.ThrottledRun | src/slack.rs:138-151 | once backed off, rate-limited queries are made every 30 s until the ceiling |
| ReplyWait.PersistentRateLimitTimesOut | src/slack.rs:136-157 | a rate limit that never lifts does not end the wait by itself: 11 queries and then the timeout |
| ReplyWait.RateLimitedThenAnswered | src/slack.rs:118-153 | a rate limit followed by an answer returns the answer after one 20 s backoff, on the second query |
| ReplyWait.OtherAuthorSkipped | src/slack.rs:130-134 | a message by someone else is passed over for the designated user's later message |
| ReplyWait.EchoDoesNotAnswer | src/slack.rs:131 | the user's message with the question's own `ts` does not answer it |
| Slack.HumanInSlack.constructor | src/slack.rs:36-44 | a new backend keeps its token, channel and user, and has no thread yet |
| Slack.HumanInSlack.SendMessage | src/slack.rs:46-74 | the method builds the post request by pushes; the result is the transport error or the mapped response |
| Slack.HumanInSlack.GetMessagesAfter | src/slack.rs:76-111 | the method builds the query request and picks the endpoint; the result is the transport error or the mapped response |
| Slack.HumanInSlack.FindReply | src/slack.rs:130-134 | the early-returning scan finds a reply iff some message qualifies, and returns the first qualifying message's text |
| Slack.HumanInSlack.Poll | src/slack.rs:123-148 | one query: the request it sends is the query request for the given `oldest` and thread, and its decision is `Classify` of the exchange (the answer, no reply, a rate limit, or a fatal error) |
| Slack.HumanInSlack.NextInterval | src/slack.rs:124-143 | after a query that lets the wait go on, the counter and interval are those of `NextRetry` and `Backoff`: reset to 0 and 10 s on success, one more retry and its backoff on a rate limit |
| Slack.HumanInSlack.WaitForReply | src/slack.rs:113-159 | the loop returns exactly what `Wait` specifies, with the same number of queries and final clock; the requests it sent are one query request per poll, each for the given `oldest` and thread |
| Slack.HumanInSlack.Ask | src/slack.rs:164-183 | the post carries the mention text and the existing thread; the first successful post sets the thread, which never changes after that; a failed post returns its error and sends no query; otherwise the wait's answer is returned and every one of its (at least one) queries reads the thread with `conversations.replies` from the new message's `ts` |
| Slack.AskTwice | src/slack.rs:164-183 | on a fresh backend the first question goes to the channel and the second into the thread the first opened; every query of the first wait reads that thread from the first post's `ts`, every query of the second wait reads the same thread from the second post's `ts` |

## Left out

- HTTP transport and JSON decoding (`reqwest`, `serde`): each round trip's
  result is an input, given as the decoded `SlackResponse` or an error text.
- Real time and latency: `tokio::time::timeout` and `sleep` become a clock
  that only the sleeps advance. There is no network latency, so a query
  started before 300 s always completes. With real latency, fewer queries fit
  into the 300 s.
- Concurrency: overlapping `ask` calls on one instance, and the `OnceCell`
  race on `thread_ts`, are not modelled. `threadTs` is a plain optional field
  that is written only when empty. So the "Failed to set thread timestamp"
  error (`src/slack.rs:174-176`) cannot happen in the model.
- The `eprintln!` log line on a rate limit (`src/slack.rs:144`).
- The HTTP client handle (`client` at `src/slack.rs:31`): it carries no
  state the logic reads.
- `src/main.rs` (command line, tool server, running backends side by side)
  is not part of this model.
- `src/discord.rs` and `src/tools.rs` (the Discord backend and the tool
  adapter's argument handling) are not part of this model.
- Lexical.StrLess: compares characters as Unicode scalar values. This gives
  the same order as Rust's byte-wise comparison of UTF-8 text. The byte
  encoding itself is not modelled.
