/** The browser side of the relay: HTML escaping of displayed text, the
    bounded local history, the history sent with each message, and the
    submit check. DOM work, speech, storage and the network are not part of
    this model. */
module Client {
  import opened Options
  import opened Seqs
  import opened JsText

  // ---------------------------------------------------------------------
  // escapeHtml
  // ---------------------------------------------------------------------

  /** The characters the escaper replaces. */
  predicate IsSpecial(c: char)
  {
    c == '&' || c == '<' || c == '>' || c == '"' || c == '\''
  }

  /** What one character becomes: its entity for the five special
      characters, itself otherwise. */
  function Entity(c: char): string
  {
    match c
    case '&' => "&amp;"
    case '<' => "&lt;"
    case '>' => "&gt;"
    case '"' => "&quot;"
    case '\'' => "&#39;"
    case _ => [c]
  }

  /** `escapeHtml(t)` on a string: every character replaced by its entity,
      in order (the empty string gives the empty string). */
  function EscapeHtml(s: string): (r: string)
    ensures |r| >= |s|
    decreases |s|
  {
    if s == [] then [] else Entity(s[0]) + EscapeHtml(s[1..])
  }

  /** Escaping works character by character: it distributes over
      concatenation. */
  lemma {:induction false} EscapeHtmlAppend(a: string, b: string)
    ensures EscapeHtml(a + b) == EscapeHtml(a) + EscapeHtml(b)
    decreases |a|
  {
    if a != [] {
      assert (a + b)[1..] == a[1..] + b;
      EscapeHtmlAppend(a[1..], b);
    } else {
      assert a + b == b;
    }
  }

  /** Text with no special character is left exactly as it is. */
  lemma {:induction false} EscapeHtmlOfPlain(s: string)
    requires forall i :: 0 <= i < |s| ==> !IsSpecial(s[i])
    ensures EscapeHtml(s) == s
    decreases |s|
  {
    if s != [] {
      EscapeHtmlOfPlain(s[1..]);
      assert [s[0]] + s[1..] == s;
    }
  }

  /** One of the five entities begins at position `i`. */
  predicate EntityAt(r: string, i: nat)
  {
    OccursAt(r, "&amp;", i) || OccursAt(r, "&lt;", i) || OccursAt(r, "&gt;", i)
      || OccursAt(r, "&quot;", i) || OccursAt(r, "&#39;", i)
  }

  function Prepend(c: char, o: Option<string>): Option<string>
  {
    match o
    case None => None
    case Some(t) => Some([c] + t)
  }

  /** Reference decoder of escaped text: each entity back to its character,
      every other character kept; `None` for a raw special character or an
      `&` that begins no entity. */
  function Unescape(r: string): Option<string>
    decreases |r|
  {
    if r == [] then Some([])
    else if r[0] == '&' then
      if OccursAt(r, "&amp;", 0) then Prepend('&', Unescape(r[5..]))
      else if OccursAt(r, "&lt;", 0) then Prepend('<', Unescape(r[4..]))
      else if OccursAt(r, "&gt;", 0) then Prepend('>', Unescape(r[4..]))
      else if OccursAt(r, "&quot;", 0) then Prepend('"', Unescape(r[6..]))
      else if OccursAt(r, "&#39;", 0) then Prepend('\'', Unescape(r[5..]))
      else None
    else if IsSpecial(r[0]) then None
    else Prepend(r[0], Unescape(r[1..]))
  }

  /** Decoding one escaped character followed by anything. */
  lemma UnescapeEntity(c: char, rest: string)
    ensures Unescape(Entity(c) + rest) == Prepend(c, Unescape(rest))
  {
    var r := Entity(c) + rest;
    var e := Entity(c);
    assert r[..|e|] == e;
    assert r[|e|..] == rest;
    if c == '<' {
      assert r[1] == 'l';
    } else if c == '>' {
      assert r[1] == 'g';
    } else if c == '"' {
      assert r[1] == 'q';
    } else if c == '\'' {
      assert r[1] == '#';
    } else if c != '&' {
      assert r[1..] == rest;
    }
  }

  /** Decoding undoes escaping, for every string. */
  lemma {:induction false} UnescapeEscapeHtml(s: string)
    ensures Unescape(EscapeHtml(s)) == Some(s)
    decreases |s|
  {
    if s != [] {
      UnescapeEntity(s[0], EscapeHtml(s[1..]));
      UnescapeEscapeHtml(s[1..]);
      assert [s[0]] + s[1..] == s;
    }
  }

  /** Text the decoder accepts holds none of `< > " '` raw, and each of its
      `&` begins an entity. */
  lemma {:induction false} DecodableIsSafe(r: string)
    requires Unescape(r).Some?
    ensures forall i :: 0 <= i < |r| ==> r[i] != '<' && r[i] != '>' && r[i] != '"' && r[i] != '\''
    ensures forall i :: 0 <= i < |r| && r[i] == '&' ==> EntityAt(r, i)
    decreases |r|
  {
    if r != [] {
      var k :=
        if r[0] != '&' then 1
        else if OccursAt(r, "&amp;", 0) then 5
        else if OccursAt(r, "&lt;", 0) || OccursAt(r, "&gt;", 0) then 4
        else if OccursAt(r, "&quot;", 0) then 6
        else 5;
      var rest := r[k..];
      DecodableIsSafe(rest);
      forall i | 0 <= i < |r|
        ensures r[i] != '<' && r[i] != '>' && r[i] != '"' && r[i] != '\''
        ensures r[i] == '&' ==> EntityAt(r, i)
      {
        if i < k {
          assert r[..k][i] == r[i];
        } else {
          assert r[i] == rest[i - k];
          if r[i] == '&' {
            assert EntityAt(rest, i - k);
            EntityAtShift(r, k, i - k);
          }
        }
      }
    }
  }

  lemma OccursAtShift(r: string, k: nat, j: nat, p: string)
    requires k <= |r| && OccursAt(r[k..], p, j)
    ensures OccursAt(r, p, k + j)
  {
    assert r[k + j..k + j + |p|] == r[k..][j..j + |p|];
  }

  lemma EntityAtShift(r: string, k: nat, j: nat)
    requires k <= |r| && EntityAt(r[k..], j)
    ensures EntityAt(r, k + j)
  {
    var rest := r[k..];
    if OccursAt(rest, "&amp;", j) {
      OccursAtShift(r, k, j, "&amp;");
    } else if OccursAt(rest, "&lt;", j) {
      OccursAtShift(r, k, j, "&lt;");
    } else if OccursAt(rest, "&gt;", j) {
      OccursAtShift(r, k, j, "&gt;");
    } else if OccursAt(rest, "&quot;", j) {
      OccursAtShift(r, k, j, "&quot;");
    } else {
      OccursAtShift(r, k, j, "&#39;");
    }
  }

  /** Escaped text holds none of `< > " '` raw, and each of its `&` begins
      one of the five entities. */
  lemma EscapeHtmlIsSafe(s: string)
    ensures var r := EscapeHtml(s);
      && (forall i :: 0 <= i < |r| ==> r[i] != '<' && r[i] != '>' && r[i] != '"' && r[i] != '\'')
      && (forall i :: 0 <= i < |r| && r[i] == '&' ==> EntityAt(r, i))
  {
    UnescapeEscapeHtml(s);
    DecodableIsSafe(EscapeHtml(s));
  }

  // ---------------------------------------------------------------------
  // The local history and the history sent to the server
  // ---------------------------------------------------------------------

  /** How many entries the browser keeps. */
  const LOCAL_HISTORY_MAX: nat := 500

  /** How many of them it sends with each message. */
  const SENT_HISTORY_MAX: nat := 60

  /** One saved message: who said it, its text, the provider that answered
      (`null` for the user's own messages) and when. */
  datatype LocalEntry = LocalEntry(who: string, text: string, provider: Option<string>, t: int)

  /** One entry of the `history` array sent to the server. */
  datatype Outgoing = Outgoing(role: string, content: string)

  /** The local history after saving `e`: pushed, then cut to its last
      `LOCAL_HISTORY_MAX` entries when longer. */
  function Saved(h: seq<LocalEntry>, e: LocalEntry): seq<LocalEntry>
  {
    KeepLast(h + [e], LOCAL_HISTORY_MAX)
  }

  /** After saving, the buffer holds at most 500 entries, ends with the new
      one, and is the most recent part of the old buffer plus the new
      entry, in order; nothing is dropped while there is room. */
  lemma SavedProperties(h: seq<LocalEntry>, e: LocalEntry)
    ensures var r := Saved(h, e);
      && 0 < |r| <= LOCAL_HISTORY_MAX
      && r[|r| - 1] == e
      && r[..|r| - 1] == h[|h| + 1 - |r|..]
      && (|h| < LOCAL_HISTORY_MAX ==> r == h + [e])
  {
    var r := Saved(h, e);
    KeepLastAt(h + [e], LOCAL_HISTORY_MAX, |r| - 1);
    assert r[..|r| - 1] == (h + [e])[|h| + 1 - |r|..|h|];
  }

  /** Each local entry as the server sees it: role "user" for the user's
      own entries, "assistant" for everything else, and the text. */
  function ToOutgoing(e: LocalEntry): Outgoing
  {
    Outgoing(if e.who == "user" then "user" else "assistant", e.text)
  }

  /** `buildHistoryForServer()`: the last `SENT_HISTORY_MAX` entries, each
      mapped to `{ role, content }`. */
  function BuildHistoryForServer(local: seq<LocalEntry>): (r: seq<Outgoing>)
    ensures |r| == if |local| > SENT_HISTORY_MAX then SENT_HISTORY_MAX else |local|
  {
    var recent := KeepLast(local, SENT_HISTORY_MAX);
    seq(|recent|, i requires 0 <= i < |recent| => ToOutgoing(recent[i]))
  }

  /** Entry `i` of the sent history is entry `|local| - |r| + i` of the
      local history: role "user" exactly when it was the user's, else
      "assistant", and its text as content. */
  lemma SentHistoryCorresponds(local: seq<LocalEntry>, i: nat)
    requires i < |BuildHistoryForServer(local)|
    ensures var r := BuildHistoryForServer(local);
      var e := local[|local| - |r| + i];
      && (r[i].role == "user" <==> e.who == "user")
      && (r[i].role != "user" ==> r[i].role == "assistant")
      && r[i].content == e.text
  {
    KeepLastAt(local, SENT_HISTORY_MAX, i);
  }

  /** The sent history ends with the message just saved. */
  lemma SentHistoryEndsWithMessage(local: seq<LocalEntry>, text: string, t: int)
    ensures var r := BuildHistoryForServer(Saved(local, LocalEntry("user", text, None, t)));
      r != [] && r[|r| - 1] == Outgoing("user", text)
  {
    var saved := Saved(local, LocalEntry("user", text, None, t));
    SavedProperties(local, LocalEntry("user", text, None, t));
    var r := BuildHistoryForServer(saved);
    SentHistoryCorresponds(saved, |r| - 1);
  }

  // ---------------------------------------------------------------------
  // Submitting
  // ---------------------------------------------------------------------

  /** The submit check: input that is blank after trimming is not sent;
      otherwise the trimmed text is. */
  function SubmittedText(input: string): (r: Option<string>)
    ensures r.None? <==> AllWhitespace(input)
    ensures r.Some? ==> r.value == Trim(input) && r.value != []
  {
    var txt := Trim(input);
    if txt == [] then None else Some(txt)
  }

  /** What is sent has no surrounding whitespace, and trimming it again
      changes nothing. */
  lemma SubmittedIsTrimmed(input: string)
    requires SubmittedText(input).Some?
    ensures var txt := SubmittedText(input).value;
      !IsWhitespace(txt[0]) && !IsWhitespace(txt[|txt| - 1]) && Trim(txt) == txt
  {
    TrimIdempotent(input);
  }

  /** The browser's message log. */
  class LocalLog {
    var localHistory: seq<LocalEntry>

    constructor ()
      ensures localHistory == []
    {
      localHistory := [];
    }

    /** `saveLocal(who, text, provider)` at time `t`, without the
        `localStorage` write. */
    method SaveLocal(who: string, text: string, provider: Option<string>, t: int)
      modifies this
      ensures localHistory == Saved(old(localHistory), LocalEntry(who, text, provider, t))
    {
      localHistory := localHistory + [LocalEntry(who, text, provider, t)];
      if |localHistory| > LOCAL_HISTORY_MAX {
        localHistory := localHistory[|localHistory| - LOCAL_HISTORY_MAX..];
      }
    }

    /** The start of `sendMessage(text)`: the message is saved first, and the
        history sent with it is built afterwards, so it ends with the
        message itself. */
    method PrepareRequest(text: string, t: int) returns (message: string, history: seq<Outgoing>)
      modifies this
      ensures localHistory == Saved(old(localHistory), LocalEntry("user", text, None, t))
      ensures message == text && history == BuildHistoryForServer(localHistory)
    {
      SaveLocal("user", text, None, t);
      history := BuildHistoryForServer(localHistory);
      message := text;
    }
  }
}
