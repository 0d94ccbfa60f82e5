/** The few JavaScript string operations the relay depends on:
    `String.prototype.trim`, `toLowerCase` and `includes`. */
module JsText {

  /** The characters `trim` removes: ECMAScript WhiteSpace (tab, vertical tab,
      form feed, space, no-break space, byte order mark and the Zs category)
      and LineTerminator (line feed, carriage return, U+2028, U+2029). */
  predicate IsWhitespace(c: char)
  {
    || c == '\t' || c == '\n' || c == '\U{000B}' || c == '\U{000C}' || c == '\r'
    || c == ' ' || c == '\U{00A0}' || c == '\U{1680}'
    || ('\U{2000}' <= c <= '\U{200A}')
    || c == '\U{2028}' || c == '\U{2029}' || c == '\U{202F}' || c == '\U{205F}'
    || c == '\U{3000}' || c == '\U{FEFF}'
  }

  predicate AllWhitespace(s: string)
  {
    forall i :: 0 <= i < |s| ==> IsWhitespace(s[i])
  }

  /** The index of the first non-whitespace character of `s` at or after
      `i`, or `|s|` when there is none. */
  function TrimStart(s: string, i: nat): (j: nat)
    requires i <= |s|
    ensures i <= j <= |s|
    ensures forall k :: i <= k < j ==> IsWhitespace(s[k])
    ensures j < |s| ==> !IsWhitespace(s[j])
    decreases |s| - i
  {
    if i == |s| || !IsWhitespace(s[i]) then i else TrimStart(s, i + 1)
  }

  /** The end of `s[..j]` once trailing whitespace is dropped, never going
      below `lo`. */
  function TrimEnd(s: string, lo: nat, j: nat): (e: nat)
    requires lo <= j <= |s|
    ensures lo <= e <= j
    ensures forall k :: e <= k < j ==> IsWhitespace(s[k])
    ensures e > lo ==> !IsWhitespace(s[e - 1])
    decreases j
  {
    if j == lo || !IsWhitespace(s[j - 1]) then j else TrimEnd(s, lo, j - 1)
  }

  /** Where the trimmed text begins in `s`. */
  function TrimOffset(s: string): (k: nat)
    ensures k <= |s|
  {
    TrimStart(s, 0)
  }

  /** `s.trim()`: the slice of `s` left once the whitespace at both ends is
      dropped. It neither starts nor ends with whitespace, everything
      dropped is whitespace, and it is empty exactly when `s` is all
      whitespace. */
  function Trim(s: string): (r: string)
    ensures TrimOffset(s) + |r| <= |s| && r == s[TrimOffset(s)..TrimOffset(s) + |r|]
    ensures forall k :: 0 <= k < TrimOffset(s) ==> IsWhitespace(s[k])
    ensures forall k :: TrimOffset(s) + |r| <= k < |s| ==> IsWhitespace(s[k])
    ensures r == [] || (!IsWhitespace(r[0]) && !IsWhitespace(r[|r| - 1]))
    ensures r == [] <==> AllWhitespace(s)
  {
    var lo := TrimStart(s, 0);
    var hi := TrimEnd(s, lo, |s|);
    assert lo < |s| ==> lo < hi;
    s[lo..hi]
  }

  /** Trimming twice is trimming once. */
  lemma TrimIdempotent(s: string)
    ensures Trim(Trim(s)) == Trim(s)
  {
    var r := Trim(s);
    if r != [] {
      assert TrimStart(r, 0) == 0;
      assert TrimEnd(r, 0, |r|) == |r|;
    }
  }

  /** ASCII `A`-`Z` to `a`-`z`; every other character unchanged. */
  function AsciiLower(c: char): (d: char)
  {
    if 'A' <= c <= 'Z' then (c as int + 32) as char else c
  }

  /** Every character through `AsciiLower`: how a non-Unicode `/i`
      regular expression compares letters, since its case folding never maps
      a non-ASCII character to an ASCII one. */
  function AsciiLowerCase(s: string): (r: string)
    ensures |r| == |s| && forall i :: 0 <= i < |s| ==> r[i] == AsciiLower(s[i])
  {
    seq(|s|, i requires 0 <= i < |s| => AsciiLower(s[i]))
  }

  /** `toLowerCase` on one character, for the characters whose lower-case
      form contains an ASCII letter: `A`-`Z`, U+0130 (capital I with dot,
      which becomes `i` followed by a combining dot) and U+212A (Kelvin sign,
      which becomes `k`). */
  function LowerChar(c: char): (r: string)
    ensures 1 <= |r| <= 2
  {
    if c == '\U{0130}' then "i\U{0307}"
    else if c == '\U{212A}' then "k"
    else [AsciiLower(c)]
  }

  /** `s.toLowerCase()`, character by character. */
  function LowerCase(s: string): (r: string)
    ensures |s| <= |r| <= 2 * |s|
  {
    if s == [] then [] else LowerChar(s[0]) + LowerCase(s[1..])
  }

  /** A string of lower-case ASCII letters and spaces is its own
      lower-case form. */
  lemma {:induction false} LowerCaseOfLower(s: string)
    requires forall c :: c in s ==> 'a' <= c <= 'z' || c == ' '
    ensures LowerCase(s) == s
  {
    if s != [] {
      assert s[0] in s;
      forall c | c in s[1..] ensures 'a' <= c <= 'z' || c == ' ' {
        assert c in s;
      }
      LowerCaseOfLower(s[1..]);
    }
  }

  /** A string that neither starts nor ends with whitespace is its own
      trimmed form. */
  lemma TrimOfTight(s: string)
    requires s != [] && !IsWhitespace(s[0]) && !IsWhitespace(s[|s| - 1])
    ensures Trim(s) == s
  {
  }

  /** `k` occurs in `s` starting at index `i`. */
  predicate OccursAt(s: string, k: string, i: nat)
  {
    i + |k| <= |s| && s[i..i + |k|] == k
  }

  /** `s.includes(k)`, scanning from the left. */
  function Contains(s: string, k: string): (b: bool)
    ensures b <==> exists i: nat :: OccursAt(s, k, i)
  {
    if |s| < |k| then false
    else if s[..|k|] == k then
      assert OccursAt(s, k, 0);
      true
    else
      ContainsStep(s, k);
      Contains(s[1..], k)
  }

  /** An occurrence of `k` in `s` past index 0 is one in `s[1..]`. */
  lemma ContainsStep(s: string, k: string)
    requires |s| >= |k| && s[..|k|] != k
    ensures (exists i: nat :: OccursAt(s, k, i)) <==> (exists i: nat :: OccursAt(s[1..], k, i))
  {
    forall i: nat | OccursAt(s[1..], k, i) ensures OccursAt(s, k, i + 1) {
      assert s[1..][i..i + |k|] == s[i + 1..i + 1 + |k|];
    }
    forall i: nat | OccursAt(s, k, i) ensures 0 < i && OccursAt(s[1..], k, i - 1) {
      assert i != 0;
      assert s[1..][i - 1..i - 1 + |k|] == s[i..i + |k|];
    }
  }

  /** A string containing `k + tail` contains `k`: this is why the source's
      second tests for "projects" and "thanks" never decide anything. */
  lemma ContainsLonger(s: string, k: string, tail: string)
    requires Contains(s, k + tail)
    ensures Contains(s, k)
  {
    var i: nat :| OccursAt(s, k + tail, i);
    assert s[i..i + |k|] == (k + tail)[..|k|];
    assert OccursAt(s, k, i);
  }

  /** `k` cannot occur in a string that lacks its first character. */
  lemma MissingFirstChar(s: string, k: string)
    requires k != [] && k[0] !in s
    ensures !Contains(s, k)
  {
  }
}
