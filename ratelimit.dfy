/** `checkRateLimit`: a fixed-window request counter per client key. A
    window opens at a key's first counted request and lasts
    `RATE_LIMIT_WINDOW_MS`; the record is written on every call, rejected
    calls included. */
module RateLimit {
  import opened Options

  const RATE_LIMIT_WINDOW_MS: int := 60 * 60 * 1000
  const RATE_LIMIT_MAX: nat := 150

  /** A key's record: requests counted in the current window and the time
      the window opened. */
  datatype Rec = Rec(count: nat, ts: int)

  function Lookup(rates: map<string, Rec>, key: string): Option<Rec>
  {
    if key in rates then Some(rates[key]) else None
  }

  /** The record after one call at time `now`: a missing record starts as
      `{count: 0, ts: now}`; a window older than `RATE_LIMIT_WINDOW_MS`
      (strictly) restarts at `now`; then the count goes up by one. */
  function NextRecord(prev: Option<Rec>, now: int): (r: Rec)
    ensures r.count >= 1
    ensures prev.Some? && now - prev.value.ts <= RATE_LIMIT_WINDOW_MS ==>
      r == Rec(prev.value.count + 1, prev.value.ts)
    ensures prev.None? || now - prev.value.ts > RATE_LIMIT_WINDOW_MS ==> r == Rec(1, now)
  {
    var rec := if prev.Some? then prev.value else Rec(0, now);
    var rec := if now - rec.ts > RATE_LIMIT_WINDOW_MS then Rec(0, now) else rec;
    rec.(count := rec.count + 1)
  }

  /** Whether the call that produced `r` is let through. */
  predicate Admitted(r: Rec)
  {
    r.count <= RATE_LIMIT_MAX
  }

  /** The record after a series of calls at the given times. */
  function Replay(prev: Option<Rec>, times: seq<int>): Option<Rec>
  {
    if times == [] then prev
    else Some(NextRecord(Replay(prev, times[..|times| - 1]), times[|times| - 1]))
  }

  /** Calls that all fall within the window opened by the first of them
      are simply counted: after `n` of them the record is `{n, first time}`. */
  lemma {:induction false} CountsWithinWindow(times: seq<int>)
    requires times != []
    requires forall i :: 0 <= i < |times| ==> times[i] - times[0] <= RATE_LIMIT_WINDOW_MS
    ensures Replay(None, times) == Some(Rec(|times|, times[0]))
  {
    var front := times[..|times| - 1];
    if front != [] {
      CountsWithinWindow(front);
    }
  }

  /** Within one window the first `RATE_LIMIT_MAX` calls are admitted and
      every later one, the 151st included, is rejected. */
  lemma AdmittedIffWithinQuota(times: seq<int>)
    requires times != []
    requires forall i :: 0 <= i < |times| ==> times[i] - times[0] <= RATE_LIMIT_WINDOW_MS
    ensures Admitted(Replay(None, times).value) <==> |times| <= RATE_LIMIT_MAX
  {
    CountsWithinWindow(times);
  }

  /** Once the window has passed, the next call restarts the count at 1
      and is admitted, however many calls were rejected before. */
  lemma WindowElapsedResets(r: Rec, now: int)
    requires now - r.ts > RATE_LIMIT_WINDOW_MS
    ensures NextRecord(Some(r), now) == Rec(1, now) && Admitted(NextRecord(Some(r), now))
  {
  }

  /** A rejected call still counts: the count keeps growing past the limit
      until the window ends. */
  lemma RejectedCallsCount(r: Rec, now: int)
    requires now - r.ts <= RATE_LIMIT_WINDOW_MS && !Admitted(r)
    ensures NextRecord(Some(r), now).count == r.count + 1 && !Admitted(NextRecord(Some(r), now))
  {
  }
}
