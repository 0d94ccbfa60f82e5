/** The `/api/chat` handler and the process-wide state it works on: the
    shared conversation store `chatHistory` and the per-client `rateMap`.
    One request is handled at a time; the upstream is given as the outcome
    each attempt would have, the clock as the request's `now`. */
module Server {
  import opened Options
  import opened Seqs
  import opened Fallback
  import opened Conversation
  import opened Normalize
  import opened RateLimit
  import opened Upstream

  /** Where a 200 reply came from: "gemini" or "fallback". */
  datatype Provider = Gemini | RuleBased

  /** The handler's answer. */
  datatype Response =
    | TooManyRequests   // 429, "Rate limit exceeded. Try later."
    | BadRequest        // 400, "Missing or invalid 'message' in request body."
    | Ok(reply: string, provider: Provider, error: Option<UpstreamError>)  // 200
    | InternalError(msg: string)  // 500 from the upstream path

  /** One `POST /api/chat`: the client key (its IP), the time, the body's
      `message` property and its `history` property when that is an array. */
  datatype Request = Request(ip: string, now: int, message: JsValue, history: Option<seq<ClientItem>>)

  /** Fixed at start-up: `MAX_TOTAL_ENTRIES` and whether `GEMINI_KEY` is set. */
  datatype Config = Config(maxTotalEntries: nat, hasGeminiKey: bool)

  datatype State = State(chatHistory: seq<Turn>, rateMap: map<string, Rec>)

  /** `message` is a non-empty string. */
  predicate ValidMessage(v: JsValue)
  {
    v.Str? && v.s != ""
  }

  /** The `contents` payload: every stored turn with its text passed through
      `safeText` again. */
  function UpstreamContents(h: seq<Turn>): (r: seq<Turn>)
    ensures |r| == |h|
    ensures forall i :: 0 <= i < |h| ==> r[i].role == h[i].role && r[i].text == SafeText(h[i].text)
  {
    seq(|h|, i requires 0 <= i < |h| => Turn(h[i].role, SafeText(h[i].text)))
  }

  /** Since every stored text is already capped, the payload is the stored
      history itself. */
  lemma UpstreamContentsIsHistory(h: seq<Turn>)
    requires TextsCapped(h)
    ensures UpstreamContents(h) == h
  {
  }

  /** The history after the merge step: client turns merged in when
      `history` is a non-empty array. */
  function Merged(h: seq<Turn>, history: Option<seq<ClientItem>>): seq<Turn>
  {
    if history.Some? && |history.value| > 0 then MergeInto(h, NormalizeAll(history.value)) else h
  }

  /** The store once the merge is done and the user turn pushed and
      trimmed. */
  function WithUserTurn(h: seq<Turn>, history: Option<seq<ClientItem>>, message: string, cap: nat): seq<Turn>
  {
    TrimmedHistory(Merged(h, history) + [Turn(User, SafeText(message))], cap)
  }

  /** What a finished retry loop answers: the upstream reply, a 500, or,
      once the attempts are used up, `fallback` with the last error. */
  function UpstreamAnswer(result: UpstreamResult, fallback: string): Response
  {
    match result
    case Replied(text) => Ok(text, Gemini, None)
    case ServerError(msg) => InternalError(msg)
    case Exhausted(lastError) => Ok(fallback, RuleBased, lastError)
  }

  /** How the reply is obtained for an admitted, valid message: the rules
      when no key is set; otherwise the retry loop, whose exhaustion falls
      back to the rules and carries the last error. */
  function ModelAnswer(hasGeminiKey: bool, message: string, upstream: seq<Outcome>): (r: Response)
    requires |upstream| >= MAX_RETRIES
    ensures r.Ok? || r.InternalError?
  {
    if !hasGeminiKey then Ok(RuleBasedReply(message), RuleBased, None)
    else UpstreamAnswer(RetryRun(upstream, 0, None).result, RuleBasedReply(message))
  }

  /** The store after the answer: a 200 pushes the reply through `safeText`
      (which keeps a rule-based reply as it is) and trims again; a 500
      stores nothing more. */
  function WithAnswer(h: seq<Turn>, answer: Response, cap: nat): seq<Turn>
  {
    if answer.Ok? then TrimmedHistory(h + [Turn(Model, SafeText(answer.reply))], cap) else h
  }

  /** The handler given `answer`, the answer a message gets once it is
      admitted, valid and stored: the rate limit first, then the message
      check, then the merge and the user turn, then the answer. */
  function Handled(cfg: Config, st: State, req: Request, answer: string -> Response): (Response, State)
  {
    var rec := NextRecord(Lookup(st.rateMap, req.ip), req.now);
    var rates := st.rateMap[req.ip := rec];
    if !Admitted(rec) then (TooManyRequests, State(st.chatHistory, rates))
    else if !ValidMessage(req.message) then (BadRequest, State(st.chatHistory, rates))
    else
      var message := req.message.s;
      var cap := cfg.maxTotalEntries;
      var resp := answer(message);
      (resp, State(WithAnswer(WithUserTurn(st.chatHistory, req.history, message, cap), resp, cap), rates))
  }

  /** The whole handler as a function of the state before the request. */
  function Serve(cfg: Config, st: State, req: Request, upstream: seq<Outcome>): (Response, State)
    requires |upstream| >= MAX_RETRIES
  {
    Handled(cfg, st, req, message => ModelAnswer(cfg.hasGeminiKey, message, upstream))
  }

  /** The process state between requests: the store within its bound and
      every text within the character cap. */
  ghost predicate Good(cfg: Config, st: State)
  {
    cfg.maxTotalEntries >= 2 && |st.chatHistory| <= cfg.maxTotalEntries && TextsCapped(st.chatHistory)
  }

  /** The rate limit is checked first: every request, a rejected or
      malformed one included, writes its client's record, and no other
      client's record changes. A request is refused with 429 exactly when
      its record is over the quota, and with 400 exactly when it is within
      the quota but `message` is not a non-empty string; otherwise it gets
      the answer for its message. */
  lemma RateLimitFirst(cfg: Config, st: State, req: Request, answer: string -> Response)
    ensures var (resp, st') := Handled(cfg, st, req, answer);
      var rec := NextRecord(Lookup(st.rateMap, req.ip), req.now);
      && st'.rateMap == st.rateMap[req.ip := rec]
      && (!Admitted(rec) ==> resp == TooManyRequests)
      && (Admitted(rec) && !ValidMessage(req.message) ==> resp == BadRequest)
      && (Admitted(rec) && ValidMessage(req.message) ==> resp == answer(req.message.s))
  {
  }

  /** An admitted, valid request stores its answer after its user turn. */
  lemma AdmittedStoresAnswer(cfg: Config, st: State, req: Request, answer: string -> Response)
    requires Admitted(NextRecord(Lookup(st.rateMap, req.ip), req.now)) && ValidMessage(req.message)
    ensures var (resp, st') := Handled(cfg, st, req, answer);
      var cap := cfg.maxTotalEntries;
      st'.chatHistory == WithAnswer(WithUserTurn(st.chatHistory, req.history, req.message.s, cap), resp, cap)
  {
  }

  /** Refused requests (429 and 400) leave the conversation untouched. */
  lemma RefusedLeaveHistory(cfg: Config, st: State, req: Request, answer: string -> Response)
    ensures var (resp, st') := Handled(cfg, st, req, answer);
      var rec := NextRecord(Lookup(st.rateMap, req.ip), req.now);
      !Admitted(rec) || !ValidMessage(req.message) ==> st'.chatHistory == st.chatHistory
  {
  }

  /** The user turn is the last stored turn once it is pushed, and the store
      is within its bound. */
  lemma WithUserTurnEnds(h: seq<Turn>, history: Option<seq<ClientItem>>, message: string, cap: nat)
    requires cap >= 1
    ensures var r := WithUserTurn(h, history, message, cap);
      0 < |r| <= cap && r[|r| - 1] == Turn(User, SafeText(message))
  {
    var full := Merged(h, history) + [Turn(User, SafeText(message))];
    KeepLastAt(full, cap, |TrimmedHistory(full, cap)| - 1);
  }

  /** Merging and pushing the user turn keep every text capped. */
  lemma WithUserTurnCapped(h: seq<Turn>, history: Option<seq<ClientItem>>, message: string, cap: nat)
    requires TextsCapped(h)
    ensures TextsCapped(WithUserTurn(h, history, message, cap))
  {
    var merged := Merged(h, history);
    assert TextsCapped(merged) by {
      if history.Some? && |history.value| > 0 {
        var items := NormalizeAll(history.value);
        NormalizeAllCapped(history.value);
        MergeAddsOnlyItems(h, items);
        MergeIntoProperties(h, items);
        forall i | 0 <= i < |merged| ensures |merged[i].text| <= MAX_MESSAGE_CHARS {
          if i < |h| {
            assert merged[i] == h[i];
          } else {
            var j :| 0 <= j < |items| && items[j] == merged[i];
          }
        }
      }
    }
    TrimmedHistoryCapped(merged + [Turn(User, SafeText(message))], cap);
  }

  /** A 200 leaves the turn before the answer followed by the reply turn at
      the end of the store; any other answer stores nothing; the store stays
      within its bound. */
  lemma WithAnswerEnds(h: seq<Turn>, answer: Response, cap: nat)
    requires cap >= 2 && h != [] && |h| <= cap
    ensures var r := WithAnswer(h, answer, cap);
      && 0 < |r| <= cap
      && (answer.Ok? ==> |r| >= 2 && r[|r| - 2] == h[|h| - 1] && r[|r| - 1] == Turn(Model, SafeText(answer.reply)))
      && (!answer.Ok? ==> r == h)
  {
    if answer.Ok? {
      var full := h + [Turn(Model, SafeText(answer.reply))];
      var r := TrimmedHistory(full, cap);
      KeepLastAt(full, cap, |r| - 1);
      KeepLastAt(full, cap, |r| - 2);
    }
  }

  /** Storing the answer keeps every text capped. */
  lemma WithAnswerCapped(h: seq<Turn>, answer: Response, cap: nat)
    requires TextsCapped(h)
    ensures TextsCapped(WithAnswer(h, answer, cap))
  {
    if answer.Ok? {
      TrimmedHistoryCapped(h + [Turn(Model, SafeText(answer.reply))], cap);
    }
  }

  /** An admitted, valid request leaves its user turn in the store: followed
      by the reply turn on a 200, as the last turn otherwise; the store
      stays within its bound. */
  lemma AnsweredEndsWithExchange(cfg: Config, st: State, req: Request, answer: string -> Response)
    requires cfg.maxTotalEntries >= 2
    requires Admitted(NextRecord(Lookup(st.rateMap, req.ip), req.now)) && ValidMessage(req.message)
    ensures var (resp, st') := Handled(cfg, st, req, answer);
      var h := st'.chatHistory;
      && 0 < |h| <= cfg.maxTotalEntries
      && (resp.Ok? ==>
            && |h| >= 2
            && h[|h| - 2] == Turn(User, SafeText(req.message.s))
            && h[|h| - 1] == Turn(Model, SafeText(resp.reply)))
      && (!resp.Ok? ==> h[|h| - 1] == Turn(User, SafeText(req.message.s)))
  {
    var cap := cfg.maxTotalEntries;
    var h := WithUserTurn(st.chatHistory, req.history, req.message.s, cap);
    WithUserTurnEnds(st.chatHistory, req.history, req.message.s, cap);
    WithAnswerEnds(h, answer(req.message.s), cap);
  }

  /** Every request keeps the state good: the store within its bound and
      every stored text within the character cap. */
  lemma HandledKeepsGood(cfg: Config, st: State, req: Request, answer: string -> Response)
    requires Good(cfg, st)
    ensures Good(cfg, Handled(cfg, st, req, answer).1)
  {
    var rec := NextRecord(Lookup(st.rateMap, req.ip), req.now);
    if Admitted(rec) && ValidMessage(req.message) {
      var cap := cfg.maxTotalEntries;
      var h := WithUserTurn(st.chatHistory, req.history, req.message.s, cap);
      WithUserTurnEnds(st.chatHistory, req.history, req.message.s, cap);
      WithUserTurnCapped(st.chatHistory, req.history, req.message.s, cap);
      WithAnswerEnds(h, answer(req.message.s), cap);
      WithAnswerCapped(h, answer(req.message.s), cap);
    }
  }

  /** Without a key the upstream is never consulted: whatever its outcomes
      would be, the handler answers and stores the same. An admitted, valid
      request always gets a 200 with the rule-based reply and no error. */
  lemma NoKeyAnswersByRules(cfg: Config, st: State, req: Request, upstream: seq<Outcome>, other: seq<Outcome>)
    requires !cfg.hasGeminiKey && |upstream| >= MAX_RETRIES && |other| >= MAX_RETRIES
    ensures Serve(cfg, st, req, upstream) == Serve(cfg, st, req, other)
    ensures var resp := Serve(cfg, st, req, upstream).0;
      resp.Ok? ==> req.message.Str? && resp == Ok(RuleBasedReply(req.message.s), RuleBased, None)
    ensures Admitted(NextRecord(Lookup(st.rateMap, req.ip), req.now)) && ValidMessage(req.message) ==>
      Serve(cfg, st, req, upstream).0 == Ok(RuleBasedReply(req.message.s), RuleBased, None)
  {
    RateLimitFirst(cfg, st, req, message => ModelAnswer(cfg.hasGeminiKey, message, upstream));
  }

  /** With the loop ended at attempt `k`, the answer is a 500 exactly when
      that attempt is a response that is not a usable reply: an HTTP error
      answers with its own message and is one that is not retryable or came
      on the last attempt; a missing reply text answers "No reply from
      Gemini" and can only come on the last attempt. */
  lemma ServerErrorFromRetryLoop(upstream: seq<Outcome>, fallback: string, k: nat)
    requires EndsAt(upstream, k)
    ensures var r := UpstreamAnswer(RetryRun(upstream, 0, None).result, fallback);
      var o := upstream[k];
      && (r.InternalError? <==> o.Response? && !(IsOk(o.status) && HasReplyText(o)))
      && (o.Response? && !IsOk(o.status) ==>
            r == InternalError(o.msg) && (k == MAX_RETRIES - 1 || !RetryableError(o.status, o.msg)))
      && (o.Response? && IsOk(o.status) && !HasReplyText(o) ==>
            r == InternalError(NO_REPLY_MESSAGE) && k == MAX_RETRIES - 1)
  {
    RunEndsAt(upstream, k, 0, None);
  }

  /** With the loop ended at attempt `k`, a 200 says "gemini" exactly when
      that attempt is an OK response with reply text, and it then answers
      that text with no error. */
  lemma GeminiExactlyOnSuccess(upstream: seq<Outcome>, fallback: string, k: nat)
    requires EndsAt(upstream, k)
    ensures var r := UpstreamAnswer(RetryRun(upstream, 0, None).result, fallback);
      var o := upstream[k];
      && (r.Ok? && r.provider == Gemini <==> o.Response? && IsOk(o.status) && HasReplyText(o))
      && (o.Response? && IsOk(o.status) && HasReplyText(o) ==> r == Ok(o.replyText.value, Gemini, None))
  {
    RunEndsAt(upstream, k, 0, None);
  }

  /** With a key, an admitted and valid request is answered by the attempt
      that ends the loop: its reply text with provider "gemini", a 500 for
      an unusable response, or, after a thrown error (which can only end
      the last attempt), the rule-based reply carrying that error. */
  lemma KeyAnswersByRetryLoop(cfg: Config, st: State, req: Request, upstream: seq<Outcome>, k: nat)
    requires cfg.hasGeminiKey && EndsAt(upstream, k)
    requires Admitted(NextRecord(Lookup(st.rateMap, req.ip), req.now)) && ValidMessage(req.message)
    ensures var resp := Serve(cfg, st, req, upstream).0;
      var o := upstream[k];
      && (o.Response? && IsOk(o.status) && HasReplyText(o) ==> resp == Ok(o.replyText.value, Gemini, None))
      && (resp.InternalError? <==> o.Response? && !(IsOk(o.status) && HasReplyText(o)))
      && (o.Thrown? ==> k == MAX_RETRIES - 1 && resp == Ok(RuleBasedReply(req.message.s), RuleBased, Some(FetchError(o.msg))))
  {
    var m := req.message.s;
    RateLimitFirst(cfg, st, req, message => ModelAnswer(cfg.hasGeminiKey, message, upstream));
    ServerErrorFromRetryLoop(upstream, RuleBasedReply(m), k);
    GeminiExactlyOnSuccess(upstream, RuleBasedReply(m), k);
    RunEndsAt(upstream, k, 0, None);
  }

  /** The fallback reply is given only after a thrown error on the last
      attempt, and the answer then carries that error. */
  lemma FallbackOnlyAfterLastThrow(upstream: seq<Outcome>, fallback: string)
    requires |upstream| >= MAX_RETRIES
    ensures var r := UpstreamAnswer(RetryRun(upstream, 0, None).result, fallback);
      r.Ok? && r.provider == RuleBased ==>
        && upstream[MAX_RETRIES - 1].Thrown?
        && r == Ok(fallback, RuleBased, Some(FetchError(upstream[MAX_RETRIES - 1].msg)))
  {
    if RetryRun(upstream, 0, None).result.Exhausted? {
      ExhaustedOnlyAfterLastThrow(upstream, 0, None);
    }
  }

  /** The first loop of the merge: every client entry normalized, the
      dropped ones left out. */
  method NormalizeClientHistory(clientHistory: seq<ClientItem>) returns (normalized: seq<Turn>)
    ensures normalized == NormalizeAll(clientHistory)
  {
    normalized := [];
    for i := 0 to |clientHistory|
      invariant normalized == NormalizeAll(clientHistory[..i])
    {
      var n := NormalizeClientItem(clientHistory[i]);
      NormalizeAllStep(clientHistory, i);
      if n.Some? {
        normalized := normalized + [n.value];
      }
    }
    assert clientHistory[..|clientHistory|] == clientHistory;
  }

  /** The server object: the module-level `chatHistory` and `rateMap` with
      the start-up configuration. */
  class ChatServer {
    var chatHistory: seq<Turn>
    var rateMap: map<string, Rec>
    const maxTotalEntries: nat
    const hasGeminiKey: bool

    ghost function Settings(): Config
      reads this
    {
      Config(maxTotalEntries, hasGeminiKey)
    }

    ghost function Snapshot(): State
      reads this
    {
      State(chatHistory, rateMap)
    }

    ghost predicate Valid()
      reads this
    {
      Good(Settings(), Snapshot())
    }

    /** Start-up: empty store and rate map; `MAX_HISTORY` from the
        environment (0 when unset), and whether a key is configured. */
    constructor (maxHistoryEnv: nat, geminiKey: bool)
      ensures Valid()
      ensures chatHistory == [] && rateMap == map[]
      ensures maxTotalEntries == MaxTotalEntries(maxHistoryEnv) && hasGeminiKey == geminiKey
    {
      chatHistory := [];
      rateMap := map[];
      maxTotalEntries := MaxTotalEntries(maxHistoryEnv);
      hasGeminiKey := geminiKey;
    }

    /** `trimServerHistory()`. */
    method TrimServerHistory()
      modifies this
      ensures chatHistory == TrimmedHistory(old(chatHistory), maxTotalEntries)
      ensures rateMap == old(rateMap)
    {
      if |chatHistory| > maxTotalEntries {
        chatHistory := chatHistory[|chatHistory| - maxTotalEntries..];
      }
    }

    /** `checkRateLimit(ip)` at time `now`: the client's record is updated in
        place and written back, and the call is admitted while the count is
        within `RATE_LIMIT_MAX`. */
    method CheckRateLimit(ip: string, now: int) returns (admitted: bool)
      modifies this
      ensures rateMap == old(rateMap)[ip := NextRecord(Lookup(old(rateMap), ip), now)]
      ensures admitted == Admitted(rateMap[ip])
      ensures chatHistory == old(chatHistory)
    {
      var rec := if ip in rateMap then rateMap[ip] else Rec(0, now);
      if now - rec.ts > RATE_LIMIT_WINDOW_MS {
        rec := rec.(count := 0);
        rec := rec.(ts := now);
      }
      rec := rec.(count := rec.count + 1);
      rateMap := rateMap[ip := rec];
      admitted := rec.count <= RATE_LIMIT_MAX;
    }

    /** The second loop of the merge: the normalized client turns pushed
        one by one, each unless it equals the last stored turn. */
    method MergeNormalized(normalized: seq<Turn>)
      modifies this
      ensures chatHistory == MergeInto(old(chatHistory), normalized)
      ensures rateMap == old(rateMap)
    {
      for j := 0 to |normalized|
        invariant chatHistory == MergeInto(old(chatHistory), normalized[..j])
        invariant rateMap == old(rateMap)
      {
        var item := normalized[j];
        MergeIntoStep(old(chatHistory), normalized, j);
        if !(chatHistory != [] && chatHistory[|chatHistory| - 1] == item) {
          chatHistory := chatHistory + [item];
        }
      }
      assert normalized[..|normalized|] == normalized;
    }

    /** The client history merged in when it is a non-empty array, then the
        user turn pushed and the store trimmed. */
    method StoreUserTurn(history: Option<seq<ClientItem>>, message: string)
      modifies this
      ensures chatHistory == WithUserTurn(old(chatHistory), history, message, maxTotalEntries)
      ensures rateMap == old(rateMap)
    {
      if history.Some? && |history.value| > 0 {
        var normalized := NormalizeClientHistory(history.value);
        MergeNormalized(normalized);
      }
      chatHistory := chatHistory + [Turn(User, SafeText(message))];
      TrimServerHistory();
    }

    /** A model turn pushed and the store trimmed. */
    method StoreModelTurn(text: string)
      modifies this
      ensures chatHistory == TrimmedHistory(old(chatHistory) + [Turn(Model, text)], maxTotalEntries)
      ensures rateMap == old(rateMap)
    {
      chatHistory := chatHistory + [Turn(Model, text)];
      TrimServerHistory();
    }

    /** The reply branch of the handler: the rules without a key, else
        the retry loop, whose exhaustion falls back to the rules. */
    method Reply(message: string, upstream: seq<Outcome>) returns (resp: Response)
      requires |upstream| >= MAX_RETRIES
      ensures resp == ModelAnswer(hasGeminiKey, message, upstream)
    {
      if !hasGeminiKey {
        return Ok(RuleBasedReply(message), RuleBased, None);
      }
      var result, waits := CallUpstream(upstream);
      match result
      case Replied(text) =>
        resp := Ok(text, Gemini, None);
      case ServerError(msg) =>
        resp := InternalError(msg);
      case Exhausted(lastError) =>
        resp := Ok(RuleBasedReply(message), RuleBased, lastError);
    }

    /** `POST /api/chat`. */
    method Handle(req: Request, upstream: seq<Outcome>) returns (resp: Response)
      requires Valid() && |upstream| >= MAX_RETRIES
      modifies this
      ensures Valid()
      ensures (resp, Snapshot()) == Serve(Settings(), old(Snapshot()), req, upstream)
    {
      HandledKeepsGood(Settings(), Snapshot(), req, message => ModelAnswer(hasGeminiKey, message, upstream));
      var admitted := CheckRateLimit(req.ip, req.now);
      if !admitted {
        return TooManyRequests;
      }
      if !(req.message.Str? && req.message.s != "") {
        return BadRequest;
      }
      var message := req.message.s;
      StoreUserTurn(req.history, message);
      resp := Reply(message, upstream);
      if resp.Ok? {
        StoreModelTurn(SafeText(resp.reply));
      }
    }
  }
}
