/**
 * The bounded retry loops around the chat-completion service, and the error
 * classifier of the serverless workflow. Each call of the service is an
 * oracle: `attempt(k)` is what the k-th call (1-based) came back with.
 * Waiting is not performed; the waits the loop would perform are returned,
 * in milliseconds, in the order they happen.
 */
module Retry {
  import opened JsText
  import opened Outcomes

  /** What one call produced: a value, or the message of what it threw. */
  datatype Attempt<T> = Replied(value: T) | Failed(error: string)

  /** A finished retry loop: the value if some call succeeded, the last error, how many calls were made, the waits. */
  datatype Run<T> = Run(result: Option<T>, lastError: Option<string>, calls: nat, delays: seq<nat>)

  /** The waits `backoff(1) .. backoff(n - 1)` that separate `n` calls. */
  function Waits(backoff: nat -> nat, n: nat): (w: seq<nat>)
    ensures |w| == if n == 0 then 0 else n - 1
    ensures forall i :: 0 <= i < |w| ==> w[i] == backoff(i + 1)
  {
    if n <= 1 then [] else Waits(backoff, n - 1) + [backoff(n - 1)]
  }

  /** The loop from call `k` on. */
  function Loop<T>(max: nat, attempt: nat -> Attempt<T>, backoff: nat -> nat, k: nat): (r: Run<T>)
    requires 1 <= k
    ensures k <= max ==> 1 <= r.calls <= max - k + 1
    ensures k > max ==> r == Run(None, None, 0, [])
    ensures r.result.Some? ==> attempt(k + r.calls - 1) == Replied(r.result.value)
    ensures forall j :: k <= j < k + r.calls - 1 ==> attempt(j).Failed?
    ensures r.result.None? && k <= max ==>
      k + r.calls - 1 == max && attempt(max).Failed? && r.lastError == Some(attempt(max).error)
    ensures |r.delays| == (if r.calls == 0 then 0 else r.calls - 1)
    ensures forall i :: 0 <= i < |r.delays| ==> r.delays[i] == backoff(k + i)
    decreases max + 1 - k
  {
    if k > max then Run(None, None, 0, [])
    else
      match attempt(k)
      case Replied(v) => Run(Some(v), None, 1, [])
      case Failed(e) =>
        if k == max then Run(None, Some(e), 1, [])
        else
          var rest := Loop(max, attempt, backoff, k + 1);
          Run(rest.result, rest.lastError, rest.calls + 1, [backoff(k)] + rest.delays)
  }

  /**
   * Up to `max` calls; a failed call other than the last is followed by the
   * wait `backoff(k)`; the first success ends the loop.
   */
  function Retry<T>(max: nat, attempt: nat -> Attempt<T>, backoff: nat -> nat): (r: Run<T>)
    ensures r.calls <= max && (max > 0 ==> r.calls >= 1)
    ensures r.result.Some? ==>
      attempt(r.calls) == Replied(r.result.value) && forall k :: 1 <= k < r.calls ==> attempt(k).Failed?
    ensures r.result.None? ==>
      r.calls == max && (forall k :: 1 <= k <= max ==> attempt(k).Failed?)
      && (max > 0 ==> r.lastError == Some(attempt(max).error))
    ensures r.delays == Waits(backoff, r.calls)
  {
    Loop(max, attempt, backoff, 1)
  }

  /** The loop succeeds exactly when one of the first `max` calls does. */
  lemma RetrySucceedsIff<T>(max: nat, attempt: nat -> Attempt<T>, backoff: nat -> nat)
    ensures Retry(max, attempt, backoff).result.Some? <==> exists k :: 1 <= k <= max && attempt(k).Replied?
  {
    var r := Retry(max, attempt, backoff);
    if r.result.Some? {
      assert attempt(r.calls).Replied?;
    }
  }

  // ---------------------------------------------------------------------------
  // The chat-completion calls of the article generator

  /**
   * A response of the chat-completion service: a first choice with a message
   * whose content is a string, or anything else (an HTTP error status, a
   * network error, a response without `choices[0].message`, a content that
   * is not a string), with the message of the resulting exception.
   */
  datatype Reply = Message(content: string) | Failure(reason: string)

  /** A reply as one attempt of the loop: the content is returned trimmed. */
  function AsAttempt(reply: Reply): (a: Attempt<string>)
    ensures reply.Message? <==> a.Replied?
    ensures a.Replied? ==> a.value == Trim(reply.content)
    ensures a.Failed? ==> a.error == reply.reason
  {
    match reply
    case Message(c) => Replied(Trim(c))
    case Failure(m) => Failed(m)
  }

  /** The outcome of a call with retries: a value or the thrown message, the calls made and the waits. */
  datatype Call<T> = Call(outcome: Result<T>, calls: nat, delays: seq<nat>)

  /** The calls of the service as attempts of the loop. */
  function Attempts(replies: nat -> Reply): nat -> Attempt<string> {
    (k: nat) => AsAttempt(replies(k))
  }

  /** One of the three calls the loop may make comes back with a message. */
  predicate AnyMessage(replies: nat -> Reply) {
    replies(1).Message? || replies(2).Message? || replies(3).Message?
  }

  /** Three attempts over the service's replies, in the replies' own terms. */
  lemma ThreeRepliesRun(replies: nat -> Reply, backoff: nat -> nat, r: Run<string>)
    requires r == Retry(3, Attempts(replies), backoff)
    ensures 1 <= r.calls <= 3
    ensures r.result.Some? ==>
      replies(r.calls).Message? && r.result.value == Trim(replies(r.calls).content)
      && forall k :: 1 <= k < r.calls ==> replies(k).Failure?
    ensures r.result.None? ==> !AnyMessage(replies) && r.calls == 3 && r.lastError == Some(replies(3).reason)
    ensures r.delays == Waits(backoff, r.calls)
  {
    var f := Attempts(replies);
    if r.result.Some? {
      assert f(r.calls) == AsAttempt(replies(r.calls));
      forall k | 1 <= k < r.calls
        ensures replies(k).Failure?
      {
        assert f(k) == AsAttempt(replies(k));
      }
    } else {
      assert f(1) == AsAttempt(replies(1));
      assert f(2) == AsAttempt(replies(2));
      assert f(3) == AsAttempt(replies(3));
    }
  }

  /** A three-attempt loop whose final exception message is `prefix` followed by the last error. */
  function ThreeAttempts(replies: nat -> Reply, backoff: nat -> nat, prefix: string): (c: Call<string>)
    ensures 1 <= c.calls <= 3
    ensures c.outcome.Ok? <==> AnyMessage(replies)
    ensures c.outcome.Ok? ==>
      replies(c.calls).Message? && c.outcome.value == Trim(replies(c.calls).content)
      && forall k :: 1 <= k < c.calls ==> replies(k).Failure?
    ensures c.outcome.Err? ==> c.calls == 3 && c.outcome.message == prefix + replies(3).reason
    ensures c.delays == Waits(backoff, c.calls)
  {
    var r := Retry(3, Attempts(replies), backoff);
    ThreeRepliesRun(replies, backoff, r);
    match r.result
    case Some(v) => Call(Ok(v), r.calls, r.delays)
    case None => Call(Err(prefix + r.lastError.value), r.calls, r.delays)
  }

  /** Linear backoff of the section rewriter and the tag generator: 1000 ms after call 1, 2000 ms after call 2. */
  function LinearBackoff(k: nat): nat { 1000 * k }

  /** The fixed 2000 ms wait of the article generator. */
  function FixedBackoff(k: nat): nat { 2000 }

  const RewriteFailurePrefix: string := "rewriteSection: 3回連続で失敗しました: "
  const TagsFailurePrefix: string := "generateTagsFromContent: 3回連続で失敗しました: "
  const ArticleFailurePrefix: string := "AI記事生成APIリクエストが3回連続で失敗しました: "

  /** `rewriteSection`: the rewritten body, trimmed. */
  function RewriteSection(replies: nat -> Reply): (c: Call<string>)
    ensures c.outcome.Ok? <==> AnyMessage(replies)
    ensures c.outcome.Ok? ==> replies(c.calls).Message? && c.outcome.value == Trim(replies(c.calls).content)
    ensures c.outcome.Err? ==> c.outcome.message == RewriteFailurePrefix + replies(3).reason
    ensures 1 <= c.calls <= 3 && c.delays == Waits(LinearBackoff, c.calls)
  {
    ThreeAttempts(replies, LinearBackoff, RewriteFailurePrefix)
  }

  /** `generateTagsFromContent`: the tag line, trimmed. */
  function GenerateTags(replies: nat -> Reply): (c: Call<string>)
    ensures c.outcome.Ok? <==> AnyMessage(replies)
    ensures c.outcome.Ok? ==> replies(c.calls).Message? && c.outcome.value == Trim(replies(c.calls).content)
    ensures c.outcome.Err? ==> c.outcome.message == TagsFailurePrefix + replies(3).reason
    ensures 1 <= c.calls <= 3 && c.delays == Waits(LinearBackoff, c.calls)
  {
    ThreeAttempts(replies, LinearBackoff, TagsFailurePrefix)
  }

  /** `generateArticle`: the article text, trimmed. */
  function GenerateArticle(replies: nat -> Reply): (c: Call<string>)
    ensures c.outcome.Ok? <==> AnyMessage(replies)
    ensures c.outcome.Ok? ==> replies(c.calls).Message? && c.outcome.value == Trim(replies(c.calls).content)
    ensures c.outcome.Err? ==> c.outcome.message == ArticleFailurePrefix + replies(3).reason
    ensures 1 <= c.calls <= 3 && c.delays == Waits(FixedBackoff, c.calls)
  {
    ThreeAttempts(replies, FixedBackoff, ArticleFailurePrefix)
  }

  /** Two failures and then a success: the value of the third call, after waits of 1000 and 2000 ms. */
  lemma TwoFailuresThenSuccess(replies: nat -> Reply)
    requires replies(1).Failure? && replies(2).Failure? && replies(3).Message?
    ensures RewriteSection(replies).outcome == Ok(Trim(replies(3).content))
    ensures RewriteSection(replies).delays == [1000, 2000]
  {
    var c := RewriteSection(replies);
    assert c.outcome.Ok? by {
      assert AnyMessage(replies);
    }
    assert c.calls == 3;
    LinearWaitsThree();
  }

  lemma LinearWaitsThree()
    ensures Waits(LinearBackoff, 3) == [1000, 2000]
  {
    assert Waits(LinearBackoff, 2) == [1000] by {
      assert Waits(LinearBackoff, 1) == [];
    }
  }

  /** A first success waits for nothing. */
  lemma FirstSuccessNoWait(replies: nat -> Reply)
    requires replies(1).Message?
    ensures GenerateTags(replies) == Call(Ok(Trim(replies(1).content)), 1, [])
  {
  }

  // ---------------------------------------------------------------------------
  // The serverless workflow's helpers

  /**
   * `retryOperation(operation, maxRetries)`: the operation's value, the last
   * error rethrown, or `undefined` when `maxRetries` is 0 and nothing is
   * called. Waits 5000 * (i + 1) ms after failed call i + 1.
   */
  datatype OperationOutcome<T> = Returned(value: T) | Rethrown(error: string) | Undefined

  function StepBackoff(k: nat): nat { 5000 * k }

  function RetryOperation<T>(attempt: nat -> Attempt<T>, maxRetries: nat): (r: (OperationOutcome<T>, nat, seq<nat>))
    ensures maxRetries == 0 <==> r.0.Undefined?
    ensures r.0.Undefined? ==> r.1 == 0 && r.2 == []
    ensures r.0.Returned? <==> exists k :: 1 <= k <= maxRetries && attempt(k).Replied?
    ensures r.0.Returned? ==> attempt(r.1) == Replied(r.0.value)
    ensures r.0.Rethrown? ==> r.1 == maxRetries && r.0.error == attempt(maxRetries).error
    ensures r.1 <= maxRetries && r.2 == Waits(StepBackoff, r.1)
  {
    var run := Retry(maxRetries, attempt, StepBackoff);
    RetrySucceedsIff(maxRetries, attempt, StepBackoff);
    if maxRetries == 0 then (Undefined, 0, [])
    else match run.result
      case Some(v) => (Returned(v), run.calls, run.delays)
      case None => (Rethrown(run.lastError.value), run.calls, run.delays)
  }

  /** The default of three tries waits 5 s and then 10 s before the last one. */
  lemma DefaultRetryWaits<T>(attempt: nat -> Attempt<T>)
    requires attempt(1).Failed? && attempt(2).Failed?
    ensures RetryOperation(attempt, 3).2 == [5000, 10000]
  {
    var r := Retry(3, attempt, StepBackoff);
    assert r.calls == 3;
  }

  /** What `handleError` reports. */
  datatype ErrorReport = ErrorReport(success: bool, error: string, retry: bool)

  const TimeoutLabel: string := "タイムアウトエラー"
  const MissingElementLabel: string := "ページ要素が見つかりません"

  /**
   * `handleError`: never a success; a message mentioning `timeout` is the
   * only retryable kind, tested before `selector`.
   */
  function HandleError(message: string): (r: ErrorReport)
    ensures !r.success
    ensures r.retry <==> Contains(message, "timeout")
    ensures r.error == TimeoutLabel <== Contains(message, "timeout")
    ensures !Contains(message, "timeout") && Contains(message, "selector") ==> r.error == MissingElementLabel
    ensures !Contains(message, "timeout") && !Contains(message, "selector") ==> r.error == message
  {
    if Contains(message, "timeout") then ErrorReport(false, TimeoutLabel, true)
    else if Contains(message, "selector") then ErrorReport(false, MissingElementLabel, false)
    else ErrorReport(false, message, false)
  }

  /** A message naming both keeps the timeout classification. */
  lemma TimeoutWinsOverSelector()
    ensures HandleError("selector wait timeout").retry
  {
    ContainsInfix("selector wait timeout", "timeout", 14);
  }
}
