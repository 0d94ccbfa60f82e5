/** The upstream call of `/api/chat`: up to `MAX_RETRIES` attempts, an
    exponential backoff between them, and the decision taken on each
    attempt's outcome. The network is not modelled: the caller supplies the
    outcome each attempt would have. */
module Upstream {
  import opened Options
  import opened JsText

  const MAX_RETRIES: nat := 3
  const BASE_DELAY_MS: nat := 800
  const NO_REPLY_MESSAGE := "No reply from Gemini"

  /** What one attempt produced: an HTTP response (its status, the error
      message the handler derives from its body, and the reply text found
      at `candidates[0].content.parts[0].text`, if any), or an exception
      thrown by the fetch (an abort on timeout or any other failure). */
  datatype Outcome =
    | Response(status: int, msg: string, replyText: Option<string>)
    | Thrown(msg: string, isAbort: bool)

  /** `lastError` as the handler records it. */
  datatype UpstreamError =
    | HttpError(status: int, msg: string)
    | NoReplyText(status: int)
    | FetchError(msg: string)

  /** What the handler does after one attempt. */
  datatype Step =
    | Retry(err: UpstreamError)  // wait, then `continue`
    | Fail(msg: string)          // answer 500 at once
    | Reply(text: string)        // store and return the reply
    | GiveUp(err: UpstreamError) // `break` to the fallback reply

  /** How the whole retry loop ends. */
  datatype UpstreamResult =
    | Replied(text: string)
    | ServerError(msg: string)
    | Exhausted(lastError: Option<UpstreamError>)

  /** The loop's result with the backoff delays it waited, in order. */
  datatype Run = Run(result: UpstreamResult, waits: seq<nat>)

  function Pow2(k: nat): (p: nat)
    ensures p >= 1
  {
    if k == 0 then 1 else 2 * Pow2(k - 1)
  }

  /** The wait after failed attempt `attempt`: `800 * 2 ** attempt` ms. */
  function Backoff(attempt: nat): nat
  {
    BASE_DELAY_MS * Pow2(attempt)
  }

  /** The first wait is 800 ms and each wait doubles the one before. */
  lemma BackoffDoubles(attempt: nat)
    ensures Backoff(0) == 800
    ensures Backoff(attempt + 1) == 2 * Backoff(attempt)
  {
  }

  /** `resp.ok`. */
  predicate IsOk(status: int)
  {
    200 <= status <= 299
  }

  /** `/overload|temporar/i.test(msg)`. */
  predicate TransientMessage(msg: string)
  {
    var m := AsciiLowerCase(msg);
    Contains(m, "overload") || Contains(m, "temporar")
  }

  /** The HTTP errors the loop retries (before its last attempt): 429, 503,
      or a message that looks transient. */
  predicate RetryableError(status: int, msg: string)
  {
    status == 429 || status == 503 || TransientMessage(msg)
  }

  /** The lower-case word `k` is spelt out in `s` from index `i`, each
      letter either as it is or as its upper-case form. */
  predicate SpeltAt(s: string, k: string, i: nat)
  {
    i + |k| <= |s| && forall j :: 0 <= j < |k| ==> s[i + j] == k[j] || s[i + j] as int == k[j] as int - 32
  }

  /** A lower-case ASCII word. */
  predicate LowerWord(k: string)
  {
    forall j :: 0 <= j < |k| ==> 'a' <= k[j] <= 'z'
  }

  /** Lowering `s` and finding `k` in it is finding `k` in `s` in either
      letter case. */
  lemma {:induction false} LoweredOccurrence(s: string, k: string, i: nat)
    requires LowerWord(k)
    ensures OccursAt(AsciiLowerCase(s), k, i) <==> SpeltAt(s, k, i)
  {
    var m := AsciiLowerCase(s);
    if i + |k| <= |s| {
      if OccursAt(m, k, i) {
        forall j | 0 <= j < |k| ensures s[i + j] == k[j] || s[i + j] as int == k[j] as int - 32 {
          assert m[i..i + |k|][j] == m[i + j];
        }
      }
      if SpeltAt(s, k, i) {
        assert m[i..i + |k|] == k;
      }
    }
  }

  /** The message test is a case-insensitive search: a message is
      transient exactly when "overload" or "temporar" is spelt in it in any
      mix of upper- and lower-case letters. */
  lemma TransientMessageIgnoresCase(msg: string)
    ensures TransientMessage(msg) <==>
      exists i: nat :: SpeltAt(msg, "overload", i) || SpeltAt(msg, "temporar", i)
  {
    assert LowerWord("overload") && LowerWord("temporar");
    var m := AsciiLowerCase(msg);
    forall i: nat ensures OccursAt(m, "overload", i) <==> SpeltAt(msg, "overload", i) {
      LoweredOccurrence(msg, "overload", i);
    }
    forall i: nat ensures OccursAt(m, "temporar", i) <==> SpeltAt(msg, "temporar", i) {
      LoweredOccurrence(msg, "temporar", i);
    }
  }

  /** A word spelt `k` in either case, placed anywhere in a message, is
      spelt there in the whole message. */
  lemma SpeltInside(p: string, w: string, q: string, k: string)
    requires |k| <= |w|
    requires forall j :: 0 <= j < |k| ==> w[j] == k[j] || w[j] as int == k[j] as int - 32
    ensures SpeltAt(p + w + q, k, |p|)
  {
    var s := p + w + q;
    forall j | 0 <= j < |k| ensures s[|p| + j] == w[j] {
    }
  }

  /** An upper-case "OVERLOADED" anywhere makes a message transient. */
  lemma UpperCaseOverloadIsTransient(p: string, q: string)
    ensures TransientMessage(p + "OVERLOADED" + q)
  {
    SpeltInside(p, "OVERLOADED", q, "overload");
    TransientMessageIgnoresCase(p + "OVERLOADED" + q);
  }

  /** A capitalised "Temporarily" anywhere makes a message transient. */
  lemma CapitalisedTemporaryIsTransient(p: string, q: string)
    ensures TransientMessage(p + "Temporarily" + q)
  {
    SpeltInside(p, "Temporarily", q, "temporar");
    TransientMessageIgnoresCase(p + "Temporarily" + q);
  }

  /** The reply text is present and non-empty (`!replyText` is false). */
  predicate HasReplyText(o: Outcome)
    requires o.Response?
  {
    o.replyText.Some? && o.replyText.value != ""
  }

  /** The body of one iteration of the retry loop, as a decision. The last
      attempt never retries; an HTTP error is retried only for 429, 503 or
      a transient message; a missing reply is retried; a thrown error is
      retried whatever its kind; only a thrown error on the last attempt
      gives up to the fallback. */
  function Decide(o: Outcome, attempt: nat): (s: Step)
    ensures attempt >= MAX_RETRIES - 1 ==> !s.Retry?
    ensures s.GiveUp? <==> o.Thrown? && attempt >= MAX_RETRIES - 1
    ensures s.GiveUp? ==> s.err == FetchError(o.msg)
    ensures s.Reply? <==> o.Response? && IsOk(o.status) && HasReplyText(o)
    ensures s.Reply? ==> s.text == o.replyText.value
    ensures o.Thrown? && attempt < MAX_RETRIES - 1 ==> s == Retry(FetchError(o.msg))
    ensures o.Response? && !IsOk(o.status) ==>
      s == (if RetryableError(o.status, o.msg) && attempt < MAX_RETRIES - 1
            then Retry(HttpError(o.status, o.msg)) else Fail(o.msg))
    ensures o.Response? && IsOk(o.status) && !HasReplyText(o) ==>
      s == (if attempt < MAX_RETRIES - 1 then Retry(NoReplyText(o.status)) else Fail(NO_REPLY_MESSAGE))
  {
    match o
    case Response(status, msg, replyText) =>
      if !IsOk(status) then
        var retryConditions := RetryableError(status, msg);
        if retryConditions && attempt < MAX_RETRIES - 1 then Retry(HttpError(status, msg))
        else Fail(msg)
      else if !HasReplyText(o) then
        if attempt < MAX_RETRIES - 1 then Retry(NoReplyText(status))
        else Fail(NO_REPLY_MESSAGE)
      else Reply(replyText.value)
    case Thrown(msg, isAbort) =>
      var shouldRetry := !isAbort || attempt < MAX_RETRIES - 1;
      if shouldRetry && attempt < MAX_RETRIES - 1 then Retry(FetchError(msg))
      else GiveUp(FetchError(msg))
  }

  /** The abort flag never changes the decision. */
  lemma AbortFlagIrrelevant(msg: string, attempt: nat)
    ensures Decide(Thrown(msg, true), attempt) == Decide(Thrown(msg, false), attempt)
  {
  }

  /** The retry loop from attempt `attempt` on, `lastError` being the error
      recorded so far. It waits `Backoff(k)` after each retried attempt `k`
      and, since the last attempt never retries, waits at most
      `MAX_RETRIES - 1` times in all. */
  function RetryRun(upstream: seq<Outcome>, attempt: nat, lastError: Option<UpstreamError>): (r: Run)
    requires attempt <= MAX_RETRIES <= |upstream|
    ensures attempt < MAX_RETRIES ==> |r.waits| <= MAX_RETRIES - 1 - attempt
    ensures attempt == MAX_RETRIES ==> r.waits == []
    ensures forall k :: 0 <= k < |r.waits| ==> r.waits[k] == Backoff(attempt + k)
    decreases MAX_RETRIES - attempt
  {
    if attempt == MAX_RETRIES then Run(Exhausted(lastError), [])
    else
      match Decide(upstream[attempt], attempt)
      case Retry(err) =>
        var rest := RetryRun(upstream, attempt + 1, Some(err));
        Run(rest.result, [Backoff(attempt)] + rest.waits)
      case Fail(msg) => Run(ServerError(msg), [])
      case Reply(text) => Run(Replied(text), [])
      case GiveUp(err) => Run(Exhausted(Some(err)), [])
  }

  /** The retry loop of the handler (`for (attempt = 0; attempt <
      MAX_RETRIES; attempt++)`), consuming one outcome per attempt. It makes
      at most `MAX_RETRIES` attempts and waits `800 * 2 ** k` after the
      `k`-th retried one. */
  method CallUpstream(upstream: seq<Outcome>) returns (result: UpstreamResult, waits: seq<nat>)
    requires |upstream| >= MAX_RETRIES
    ensures Run(result, waits) == RetryRun(upstream, 0, None)
    ensures |waits| < MAX_RETRIES
    ensures forall k :: 0 <= k < |waits| ==> waits[k] == Backoff(k)
  {
    var lastError: Option<UpstreamError> := None;
    waits := [];
    for attempt := 0 to MAX_RETRIES
      invariant |waits| == attempt
      invariant forall k :: 0 <= k < attempt ==> waits[k] == Backoff(k)
      invariant RetryRun(upstream, 0, None)
        == Run(RetryRun(upstream, attempt, lastError).result, waits + RetryRun(upstream, attempt, lastError).waits)
    {
      ghost var before := lastError;
      var o := upstream[attempt];
      if o.Response? {
        if !IsOk(o.status) {
          lastError := Some(HttpError(o.status, o.msg));
          var retryConditions := RetryableError(o.status, o.msg);
          if retryConditions && attempt < MAX_RETRIES - 1 {
            RetryStep(upstream, attempt, before, lastError.value, waits);
            waits := waits + [Backoff(attempt)];
            continue;
          } else {
            assert Decide(o, attempt) == Fail(o.msg);
            return ServerError(o.msg), waits;
          }
        }
        if !HasReplyText(o) {
          lastError := Some(NoReplyText(o.status));
          if attempt < MAX_RETRIES - 1 {
            RetryStep(upstream, attempt, before, lastError.value, waits);
            waits := waits + [Backoff(attempt)];
            continue;
          } else {
            assert Decide(o, attempt) == Fail(NO_REPLY_MESSAGE);
            return ServerError(NO_REPLY_MESSAGE), waits;
          }
        }
        assert Decide(o, attempt) == Reply(o.replyText.value);
        return Replied(o.replyText.value), waits;
      } else {
        lastError := Some(FetchError(o.msg));
        var isAbort := o.isAbort;
        var shouldRetry := !isAbort || attempt < MAX_RETRIES - 1;
        if shouldRetry && attempt < MAX_RETRIES - 1 {
          RetryStep(upstream, attempt, before, lastError.value, waits);
          waits := waits + [Backoff(attempt)];
          continue;
        } else {
          assert Decide(o, attempt) == GiveUp(FetchError(o.msg));
          break;
        }
      }
    }
    result := Exhausted(lastError);
  }

  /** One retried attempt: a wait of `Backoff(attempt)` in front of the
      rest of the loop. */
  lemma RetryStep(upstream: seq<Outcome>, attempt: nat, lastError: Option<UpstreamError>, err: UpstreamError, waits: seq<nat>)
    requires attempt < MAX_RETRIES <= |upstream|
    requires Decide(upstream[attempt], attempt) == Retry(err)
    ensures var rest := RetryRun(upstream, attempt + 1, Some(err));
      && RetryRun(upstream, attempt, lastError) == Run(rest.result, [Backoff(attempt)] + rest.waits)
      && waits + RetryRun(upstream, attempt, lastError).waits == (waits + [Backoff(attempt)]) + rest.waits
  {
  }

  /** The loop ends in `Exhausted` only through a thrown error on the last
      attempt, every earlier attempt having been retried; the error carried
      is that exception's. */
  lemma {:induction false} ExhaustedOnlyAfterLastThrow(upstream: seq<Outcome>, attempt: nat, lastError: Option<UpstreamError>)
    requires attempt < MAX_RETRIES <= |upstream|
    requires RetryRun(upstream, attempt, lastError).result.Exhausted?
    ensures upstream[MAX_RETRIES - 1].Thrown?
    ensures RetryRun(upstream, attempt, lastError).result == Exhausted(Some(FetchError(upstream[MAX_RETRIES - 1].msg)))
    ensures |RetryRun(upstream, attempt, lastError).waits| == MAX_RETRIES - 1 - attempt
    decreases MAX_RETRIES - attempt
  {
    var step := Decide(upstream[attempt], attempt);
    if step.Retry? {
      ExhaustedOnlyAfterLastThrow(upstream, attempt + 1, Some(step.err));
    }
  }

  /** Attempt `k` ends the loop: every earlier attempt was retried and this
      one is not. */
  predicate EndsAt(upstream: seq<Outcome>, k: nat)
  {
    && k < MAX_RETRIES <= |upstream|
    && (forall j :: 0 <= j < k ==> Decide(upstream[j], j).Retry?)
    && !Decide(upstream[k], k).Retry?
  }

  /** How the loop ends on a decision that does not retry. */
  function Ended(s: Step): UpstreamResult
    requires !s.Retry?
  {
    match s
    case Fail(msg) => ServerError(msg)
    case Reply(text) => Replied(text)
    case GiveUp(err) => Exhausted(Some(err))
  }

  /** Some attempt always ends the loop, since the last one never retries. */
  lemma LoopEnds(upstream: seq<Outcome>) returns (k: nat)
    requires |upstream| >= MAX_RETRIES
    ensures EndsAt(upstream, k)
  {
    if !Decide(upstream[0], 0).Retry? {
      k := 0;
    } else if !Decide(upstream[1], 1).Retry? {
      k := 1;
    } else {
      k := 2;
    }
  }

  /** The loop's result is decided by the attempt that ends it, after one
      wait for each earlier attempt. */
  lemma {:induction false} RunEndsAt(upstream: seq<Outcome>, k: nat, attempt: nat, lastError: Option<UpstreamError>)
    requires EndsAt(upstream, k) && attempt <= k
    ensures RetryRun(upstream, attempt, lastError).result == Ended(Decide(upstream[k], k))
    ensures |RetryRun(upstream, attempt, lastError).waits| == k - attempt
    decreases k - attempt
  {
    if attempt < k {
      var step := Decide(upstream[attempt], attempt);
      RunEndsAt(upstream, k, attempt + 1, Some(step.err));
    }
  }

  /** Two 503 responses and then a reply: the reply is returned after
      exactly two waits, 800 ms and 1600 ms. */
  lemma TwoOverloadsThenReply(m1: string, m2: string, status: int, text: string)
    requires IsOk(status) && text != ""
    ensures RetryRun([Response(503, m1, None), Response(503, m2, None), Response(status, "", Some(text))], 0, None)
      == Run(Replied(text), [800, 1600])
  {
    var u := [Response(503, m1, None), Response(503, m2, None), Response(status, "", Some(text))];
    assert RetryRun(u, 2, Some(HttpError(503, m2))) == Run(Replied(text), []);
    assert RetryRun(u, 1, Some(HttpError(503, m1))) == Run(Replied(text), [1600]);
  }

  /** A non-retryable HTTP error (such as a plain 500) ends the loop at
      once with a server error, whatever later attempts would give: it does
      NOT reach the fallback reply. */
  lemma PlainHttpErrorIsFinal(upstream: seq<Outcome>, attempt: nat, lastError: Option<UpstreamError>)
    requires attempt < MAX_RETRIES <= |upstream|
    requires upstream[attempt].Response? && !IsOk(upstream[attempt].status)
    requires !RetryableError(upstream[attempt].status, upstream[attempt].msg)
    ensures RetryRun(upstream, attempt, lastError) == Run(ServerError(upstream[attempt].msg), [])
  {
  }

  /** Three thrown errors (timeouts or not) reach the fallback with the
      last exception as the recorded error, after waits of 800 and 1600 ms. */
  lemma ThreeThrowsGiveUp(m0: string, m1: string, m2: string, a0: bool, a1: bool, a2: bool)
    ensures RetryRun([Thrown(m0, a0), Thrown(m1, a1), Thrown(m2, a2)], 0, None)
      == Run(Exhausted(Some(FetchError(m2))), [800, 1600])
  {
    var u := [Thrown(m0, a0), Thrown(m1, a1), Thrown(m2, a2)];
    assert RetryRun(u, 1, Some(FetchError(m0))) == Run(Exhausted(Some(FetchError(m2))), [1600]);
  }
}
