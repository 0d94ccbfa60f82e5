/** The browser and the server together: what the server stores when the
    browser sends a message with the history it builds for it. */
module Relay {
  import opened Options
  import opened Seqs
  import opened JsText
  import opened Conversation
  import opened Normalize
  import opened Client
  import opened RateLimit
  import opened Server

  /** The sent history as the server parses it: each `{ role, content }`
      object, plain objects with two string properties. */
  function ToClientItems(sent: seq<Outgoing>): (r: seq<ClientItem>)
    ensures |r| == |sent|
    ensures forall i :: 0 <= i < |sent| ==> r[i] == ClientEntry(sent[i].role, sent[i].content)
  {
    seq(|sent|, i requires 0 <= i < |sent| => ClientEntry(sent[i].role, sent[i].content))
  }

  /** The request `sendMessage(text)` makes after saving `text` at time `t`
      into the local history `local`. */
  function SentRequest(ip: string, now: int, local: seq<LocalEntry>, text: string, t: int): Request
  {
    var sent := BuildHistoryForServer(Saved(local, LocalEntry("user", text, None, t)));
    Request(ip, now, Str(text), Some(ToClientItems(sent)))
  }

  /** The browser's own entry for a submitted message normalizes to the very
      user turn the server pushes for the message. */
  lemma SubmittedEntryNormalizes(text: string)
    requires text != [] && Trim(text) == text
    ensures NormalizeClientItem(ClientEntry("user", text)) == Some(Turn(User, SafeText(text)))
  {
    UserLabel(text);
  }

  /** A normalized list ends with the normalized last entry when that one is
      kept. */
  lemma NormalizeAllLast(items: seq<ClientItem>, t: Turn)
    requires items != [] && NormalizeClientItem(items[|items| - 1]) == Some(t)
    ensures var n := NormalizeAll(items); n != [] && n[|n| - 1] == t
  {
  }

  /** `u` twice in a row at the end of the store: just before the reply
      turn when the answer was a 200, as the last two turns otherwise. */
  predicate DoubledTurn(h: seq<Turn>, u: Turn, answered: bool)
  {
    if answered then |h| >= 3 && h[|h| - 3] == u && h[|h| - 2] == u
    else |h| >= 2 && h[|h| - 2] == u && h[|h| - 1] == u
  }

  /** A user turn pushed onto a store that already ends with it is left
      twice at the end, whatever the trim. */
  lemma PushedTwice(m: seq<Turn>, u: Turn, cap: nat)
    requires cap >= 2 && m != [] && m[|m| - 1] == u
    ensures DoubledTurn(TrimmedHistory(m + [u], cap), u, false)
  {
    var full := m + [u];
    KeepLastFromEnd(full, cap, 1);
    KeepLastFromEnd(full, cap, 2);
  }

  /** The answer step keeps a doubled last turn: just before the reply turn
      on a 200, untouched otherwise. */
  lemma TwiceAfterAnswer(h: seq<Turn>, u: Turn, resp: Response, cap: nat)
    requires cap >= 3 && |h| <= cap && DoubledTurn(h, u, false)
    ensures DoubledTurn(WithAnswer(h, resp, cap), u, resp.Ok?)
  {
    if resp.Ok? {
      var full := h + [Turn(Model, SafeText(resp.reply))];
      KeepLastFromEnd(full, cap, 3);
      KeepLastFromEnd(full, cap, 2);
      assert full[|full| - 3] == h[|h| - 2] && full[|full| - 2] == h[|h| - 1];
    }
  }

  /** Merging a list that ends with `u`, pushing `u` and then storing any
      answer leaves `u` twice in a row: just before the reply turn on a
      200, as the last two turns otherwise. */
  lemma MergedThenStoredTwice(h: seq<Turn>, n: seq<Turn>, u: Turn, resp: Response, cap: nat)
    requires cap >= 3 && n != [] && n[|n| - 1] == u
    ensures DoubledTurn(WithAnswer(TrimmedHistory(MergeInto(h, n) + [u], cap), resp, cap), u, resp.Ok?)
  {
    MergeIntoLast(h, n);
    var m := MergeInto(h, n);
    PushedTwice(m, u, cap);
    TwiceAfterAnswer(TrimmedHistory(m + [u], cap), u, resp, cap);
  }

  /** The history sent with a submitted message normalizes to a list that
      ends with the message's own user turn. */
  lemma SentHistoryEndsWithUserTurn(local: seq<LocalEntry>, text: string, t: int)
    requires text != [] && Trim(text) == text
    ensures var items := ToClientItems(BuildHistoryForServer(Saved(local, LocalEntry("user", text, None, t))));
      var n := NormalizeAll(items);
      items != [] && n != [] && n[|n| - 1] == Turn(User, SafeText(text))
  {
    var sent := BuildHistoryForServer(Saved(local, LocalEntry("user", text, None, t)));
    SentHistoryEndsWithMessage(local, text, t);
    var items := ToClientItems(sent);
    assert items[|items| - 1] == ClientEntry("user", text);
    SubmittedEntryNormalizes(text);
    NormalizeAllLast(items, Turn(User, SafeText(text)));
  }

  /** An incoming history that normalizes to a list ending with the
      message's own user turn leaves that turn twice in a row once the
      message and its answer are stored. */
  lemma EchoStoredTwice(h: seq<Turn>, history: Option<seq<ClientItem>>, text: string, resp: Response, cap: nat)
    requires cap >= 3 && history.Some? && history.value != []
    requires var n := NormalizeAll(history.value);
      n != [] && n[|n| - 1] == Turn(User, SafeText(text))
    ensures DoubledTurn(WithAnswer(WithUserTurn(h, history, text, cap), resp, cap), Turn(User, SafeText(text)), resp.Ok?)
  {
    var n := NormalizeAll(history.value);
    var u := Turn(User, SafeText(text));
    MergedThenStoredTwice(h, n, u, resp, cap);
    assert WithUserTurn(h, history, text, cap) == TrimmedHistory(MergeInto(h, n) + [u], cap);
  }

  /** On the server side: an admitted message whose client history already
      ends with its user turn is stored twice in a row. */
  lemma EchoedTurnStoredTwice(cfg: Config, st: State, req: Request, answer: string -> Response)
    requires cfg.maxTotalEntries >= 3
    requires Admitted(NextRecord(Lookup(st.rateMap, req.ip), req.now)) && ValidMessage(req.message)
    requires req.history.Some? && req.history.value != []
    requires var n := NormalizeAll(req.history.value);
      n != [] && n[|n| - 1] == Turn(User, SafeText(req.message.s))
    ensures var (resp, st') := Handled(cfg, st, req, answer);
      DoubledTurn(st'.chatHistory, Turn(User, SafeText(req.message.s)), resp.Ok?)
  {
    var resp := Handled(cfg, st, req, answer).0;
    AdmittedStoresAnswer(cfg, st, req, answer);
    EchoStoredTwice(st.chatHistory, req.history, req.message.s, resp, cfg.maxTotalEntries);
  }

  /** The browser saves a message before it builds the history it sends, so
      the history already ends with the message; the server merges that
      entry in and then pushes the message again. Whatever the answer, a
      submitted message is therefore stored twice in a row: just before the
      reply turn on a 200, as the last two turns otherwise. */
  lemma SubmittedMessageStoredTwice(cfg: Config, st: State, ip: string, now: int,
                                    local: seq<LocalEntry>, input: string, text: string, t: int,
                                    answer: string -> Response)
    requires cfg.maxTotalEntries >= 3
    requires SubmittedText(input) == Some(text)
    requires Admitted(NextRecord(Lookup(st.rateMap, ip), now))
    ensures var (resp, st') := Handled(cfg, st, SentRequest(ip, now, local, text, t), answer);
      DoubledTurn(st'.chatHistory, Turn(User, SafeText(text)), resp.Ok?)
  {
    SubmittedIsTrimmed(input);
    var req := SentRequest(ip, now, local, text, t);
    assert req.message.s == text && req.ip == ip && req.now == now;
    SentHistoryEndsWithUserTurn(local, text, t);
    EchoedTurnStoredTwice(cfg, st, req, answer);
  }
}
