/** The server's conversation store: turns, the per-message character cap
    (`safeText`), the bound on stored turns (`trimServerHistory`) and the
    rule that merges client-sent turns into it without repeating the last
    stored turn. */
module Conversation {
  import opened Seqs

  const MAX_MESSAGE_CHARS: nat := 20000

  /** `MAX_HISTORY` when the environment does not set a usable value. */
  const DEFAULT_MAX_HISTORY: nat := 10

  /** The two roles the upstream accepts: 'user' and 'model'. */
  datatype Role = User | Model

  /** One stored turn, `{ role, parts: [{ text }] }`. */
  datatype Turn = Turn(role: Role, text: string)

  /** `safeText(s)` on a string: at most `MAX_MESSAGE_CHARS` characters,
      keeping the END of `s` (the most recent text), and `s` itself when it
      is short enough; the empty string is falsy and gives "". */
  function SafeText(s: string): (r: string)
    ensures |r| <= MAX_MESSAGE_CHARS && |r| <= |s|
    ensures r == s[|s| - |r|..]
    ensures |s| <= MAX_MESSAGE_CHARS ==> r == s
    ensures |s| > MAX_MESSAGE_CHARS ==> |r| == MAX_MESSAGE_CHARS
  {
    if s == "" then "" else KeepLast(s, MAX_MESSAGE_CHARS)
  }

  /** Capping twice is capping once. */
  lemma SafeTextIdempotent(s: string)
    ensures SafeText(SafeText(s)) == SafeText(s)
  {
  }

  /** Every stored text is within the cap. */
  ghost predicate TextsCapped(h: seq<Turn>)
  {
    forall i :: 0 <= i < |h| ==> |h[i].text| <= MAX_MESSAGE_CHARS
  }

  /** `MAX_TOTAL_ENTRIES` for a configured `MAX_HISTORY`: `Number(env) || 10`
      exchanges of two turns each (0 stands for unset or not a number). */
  function MaxTotalEntries(maxHistoryEnv: nat): (n: nat)
    ensures n >= 2 && n % 2 == 0
    ensures maxHistoryEnv == 0 ==> n == 2 * DEFAULT_MAX_HISTORY
    ensures maxHistoryEnv > 0 ==> n == 2 * maxHistoryEnv
  {
    2 * (if maxHistoryEnv == 0 then DEFAULT_MAX_HISTORY else maxHistoryEnv)
  }

  /** The history after `trimServerHistory`: the most recent `cap` turns. */
  function TrimmedHistory(h: seq<Turn>, cap: nat): (r: seq<Turn>)
  {
    KeepLast(h, cap)
  }

  /** Trimming leaves at most `cap` turns, keeps a suffix of the old
      history, changes nothing within the cap, and is idempotent. */
  lemma TrimmedHistoryProperties(h: seq<Turn>, cap: nat)
    ensures |TrimmedHistory(h, cap)| <= cap
    ensures TrimmedHistory(h, cap) == h[|h| - |TrimmedHistory(h, cap)|..]
    ensures |h| <= cap ==> TrimmedHistory(h, cap) == h
    ensures TrimmedHistory(TrimmedHistory(h, cap), cap) == TrimmedHistory(h, cap)
  {
  }

  /** Trimming keeps the cap on every text. */
  lemma TrimmedHistoryCapped(h: seq<Turn>, cap: nat)
    requires TextsCapped(h)
    ensures TextsCapped(TrimmedHistory(h, cap))
  {
    var r := TrimmedHistory(h, cap);
    forall i | 0 <= i < |r| ensures |r[i].text| <= MAX_MESSAGE_CHARS {
      KeepLastAt(h, cap, i);
    }
  }

  /** One step of the merge loop: push `t` unless it equals the last
      stored turn (same role and same text). */
  function PushUnlessLast(h: seq<Turn>, t: Turn): (r: seq<Turn>)
    ensures r == h || r == h + [t]
    ensures r != [] && r[|r| - 1] == t
  {
    if h != [] && h[|h| - 1] == t then h else h + [t]
  }

  /** The merge loop over the normalized client items, in order. */
  function MergeInto(h: seq<Turn>, items: seq<Turn>): (r: seq<Turn>)
  {
    if items == [] then h
    else PushUnlessLast(MergeInto(h, items[..|items| - 1]), items[|items| - 1])
  }

  /** One more item of the merge loop. */
  lemma MergeIntoStep(h: seq<Turn>, items: seq<Turn>, j: nat)
    requires j < |items|
    ensures MergeInto(h, items[..j + 1]) == PushUnlessLast(MergeInto(h, items[..j]), items[j])
  {
    assert items[..j + 1][..j] == items[..j];
  }

  /** No two neighbours from index `from` on are equal. */
  ghost predicate NoRepeatFrom(r: seq<Turn>, from: nat)
  {
    forall i :: from <= i < |r| && 0 < i ==> r[i] != r[i - 1]
  }

  /** The merge only appends: the old history is a prefix of the result, at
      most one turn is added per item, the last item ends up last, and no
      appended turn repeats the turn before it. */
  lemma {:induction false} MergeIntoProperties(h: seq<Turn>, items: seq<Turn>)
    ensures var r := MergeInto(h, items);
      && |h| <= |r| <= |h| + |items|
      && r[..|h|] == h
      && (items != [] ==> r != [] && r[|r| - 1] == items[|items| - 1])
      && NoRepeatFrom(r, |h|)
  {
    if items != [] {
      var front := items[..|items| - 1];
      MergeIntoProperties(h, front);
      var r0 := MergeInto(h, front);
      var r := MergeInto(h, items);
      assert r == PushUnlessLast(r0, items[|items| - 1]);
      assert r[..|r0|] == r0;
      assert r[..|h|] == r0[..|h|];
    }
  }

  /** The last item is the last turn after the merge. */
  lemma MergeIntoLast(h: seq<Turn>, items: seq<Turn>)
    requires items != []
    ensures var r := MergeInto(h, items); r != [] && r[|r| - 1] == items[|items| - 1]
  {
  }

  /** Every appended turn is one of the items. */
  lemma {:induction false} MergeAddsOnlyItems(h: seq<Turn>, items: seq<Turn>)
    ensures forall i :: |h| <= i < |MergeInto(h, items)| ==> MergeInto(h, items)[i] in items
  {
    if items != [] {
      var front := items[..|items| - 1];
      MergeAddsOnlyItems(h, front);
      MergeIntoProperties(h, front);
      var r0 := MergeInto(h, front);
      var r := MergeInto(h, items);
      forall i | |h| <= i < |r| ensures r[i] in items {
        if i < |r0| {
          assert r[i] == r0[i];
          assert r0[i] in front;
        } else {
          assert r[i] == items[|items| - 1];
        }
      }
    }
  }

  /** A client replaying the last stored turn adds nothing. */
  lemma ReplayLastAddsNothing(h: seq<Turn>)
    requires h != []
    ensures MergeInto(h, [h[|h| - 1]]) == h
  {
    assert [h[|h| - 1]][..0] == [];
  }

  /** Items that never repeat their predecessor, the first of which differs
      from the last stored turn, are all appended. */
  lemma {:induction false} MergeFreshItems(h: seq<Turn>, items: seq<Turn>)
    requires items != [] ==> h == [] || h[|h| - 1] != items[0]
    requires forall i :: 0 < i < |items| ==> items[i] != items[i - 1]
    ensures MergeInto(h, items) == h + items
  {
    if items != [] {
      var front := items[..|items| - 1];
      MergeFreshItems(h, front);
      assert h + front + [items[|items| - 1]] == h + items;
      if front == [] {
        assert MergeInto(h, front) == h;
      } else {
        assert (h + front)[|h + front| - 1] == items[|items| - 2];
      }
    }
  }

  /** Deduplication is against the LAST stored turn only: replaying a
      two-turn history that is already stored appends both turns again. */
  lemma ReplayOfTwoTurnsRepeats(a: Turn, b: Turn)
    requires a != b
    ensures MergeInto([a, b], [a, b]) == [a, b, a, b]
  {
    assert [a, b][..1] == [a];
    assert [a][..0] == [];
    assert MergeInto([a, b], [a]) == [a, b, a];
  }
}
