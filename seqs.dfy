/** JavaScript's `slice(-n)` on arrays and strings, as used by every bounded
    buffer of the relay (the server's turn store, the browser's local
    history, the history sent to the server, and the message-length cap). */
module Seqs {

  /** `s.slice(-n)` for a positive `n` guarded by `s.length > n`: the last
      `n` elements when there are more than `n`, otherwise `s` itself. */
  function KeepLast<T>(s: seq<T>, n: nat): (r: seq<T>)
    ensures |r| == if |s| > n then n else |s|
    ensures r == s[|s| - |r|..]
  {
    if |s| > n then s[|s| - n..] else s
  }

  /** Element `i` of the kept suffix is element `|s| - |r| + i` of the input. */
  lemma KeepLastAt<T>(s: seq<T>, n: nat, i: nat)
    requires i < |KeepLast(s, n)|
    ensures KeepLast(s, n)[i] == s[|s| - |KeepLast(s, n)| + i]
  {
  }

  /** For `j` up to `n`, the `j`-th element from the end of the kept
      suffix is the `j`-th from the end of the input. */
  lemma KeepLastFromEnd<T>(s: seq<T>, n: nat, j: nat)
    requires 1 <= j <= n && j <= |s|
    ensures |KeepLast(s, n)| >= j && KeepLast(s, n)[|KeepLast(s, n)| - j] == s[|s| - j]
  {
    KeepLastAt(s, n, |KeepLast(s, n)| - j);
  }
}
