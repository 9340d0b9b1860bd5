/** The sliding-window limiter of engine/src/inandout/ingestion/webhook_server.py. */
module RateLimiter {

  const WINDOW := 60.0

  /** `[t for t in timestamps if t > start]`. */
  function Prune(ts: seq<real>, start: real): seq<real> {
    if ts == [] then []
    else
      var n := |ts| - 1;
      Prune(ts[..n], start) + if ts[n] > start then [ts[n]] else []
  }

  /** `int(x)`: towards zero. */
  function Truncate(x: real): int {
    if x < 0.0 then -((-x).Floor) else x.Floor
  }

  function RetryAfter(oldest: real, now: real): int {
    var r := Truncate(WINDOW - (now - oldest)) + 1;
    if r < 1 then 1 else r
  }

  /** The list kept for the address, the decision, and the advised delay, 0 for an admission. */
  datatype Verdict = Verdict(window: seq<real>, allowed: bool, retryAfter: int)

  function Check(limit: nat, window: seq<real>, now: real): Verdict
    requires limit > 0
  {
    var recent := Prune(window, now - WINDOW);
    if |recent| >= limit then Verdict(recent, false, RetryAfter(recent[0], now)) else Verdict(recent + [now], true, 0)
  }

  class Limiter {
    const limit: nat
    var windows: map<string, seq<real>>

    constructor (limit: nat)
      ensures this.limit == limit && windows == map[]
    {
      this.limit := limit;
      windows := map[];
    }

    function Window(ip: string): seq<real>
      reads this
    {
      if ip in windows then windows[ip] else []
    }

    /** `_check_rate`; the middleware is installed only for a positive limit. */
    method CheckRate(ip: string, now: real) returns (allowed: bool, retryAfter: int)
      requires limit > 0
      modifies this
      ensures Verdict(Window(ip), allowed, retryAfter) == Check(limit, old(Window(ip)), now)
      ensures forall other :: other != ip ==> Window(other) == old(Window(other))
    {
      var ts, recent, i := Window(ip), [], 0;
      while i < |ts|
        invariant 0 <= i <= |ts| && recent == Prune(ts[..i], now - WINDOW)
      {
        assert ts[..i + 1][..i] == ts[..i];
        if ts[i] > now - WINDOW { recent := recent + [ts[i]]; }
        i := i + 1;
      }
      assert ts[..i] == ts;
      if |recent| >= limit {
        windows := windows[ip := recent];
        retryAfter := Truncate(WINDOW - (now - recent[0])) + 1;
        return false, if retryAfter < 1 then 1 else retryAfter;
      }
      windows := windows[ip := recent + [now]];
      return true, 0;
    }
  }

  // ---------------------------------------------------------------- one decision

  /** The remembered admissions of the last 60 seconds. */
  ghost function Recent(window: seq<real>, now: real): set<nat> {
    set i | 0 <= i < |window| && window[i] > now - 60.0
  }

  lemma {:induction false} PruneCounts(ts: seq<real>, now: real)
    ensures |Prune(ts, now - WINDOW)| == |Recent(ts, now)|
  {
    if ts != [] {
      var n := |ts| - 1;
      PruneCounts(ts[..n], now);
      assert Recent(ts, now) == Recent(ts[..n], now) + if ts[n] > now - 60.0 then {n} else {};
    }
  }

  /** A request is admitted if and only if fewer than `limit` remembered admissions are younger than 60 seconds; only an
      admission is remembered, and only a refusal carries advice. */
  lemma {:induction false} AllowedIff(limit: nat, window: seq<real>, now: real)
    requires limit > 0
    ensures var v := Check(limit, window, now);
      && (v.allowed <==> |Recent(window, now)| < limit)
      && |v.window| == |Recent(window, now)| + (if v.allowed then 1 else 0)
      && (v.allowed ==> v.window[|v.window| - 1] == now) && (v.allowed <==> v.retryAfter == 0)
  {
    PruneCounts(window, now);
  }

  // ---------------------------------------------------------------- runs of one address

  /** The stored window and the full log of admitted requests after requests at the given times. */
  datatype State = State(window: seq<real>, log: seq<real>)

  function Run(limit: nat, times: seq<real>): State
    requires limit > 0
  {
    if times == [] then State([], [])
    else
      var n := |times| - 1;
      After(limit, Run(limit, times[..n]), times[n])
  }

  ghost predicate Ascending(ts: seq<real>) {
    forall i, j :: 0 <= i <= j < |ts| ==> ts[i] <= ts[j]
  }

  lemma {:induction false} PruneTwice(ts: seq<real>, a: real, b: real)
    requires a <= b
    ensures Prune(Prune(ts, a), b) == Prune(ts, b)
  {
    if ts != [] {
      var n := |ts| - 1;
      PruneTwice(ts[..n], a, b);
      if ts[n] > a {
        assert (Prune(ts[..n], a) + [ts[n]])[..|Prune(ts[..n], a)|] == Prune(ts[..n], a);
      } else {
        assert Prune(ts, a) == Prune(ts[..n], a);
      }
    }
  }

  /** Of an ascending list pruning keeps a tail. */
  lemma {:induction false} PruneIsTail(ts: seq<real>, start: real)
    requires Ascending(ts)
    ensures var k := |ts| - |Prune(ts, start)|;
      && 0 <= k <= |ts| && Prune(ts, start) == ts[k..]
      && (forall i :: 0 <= i < k ==> ts[i] <= start) && (forall i :: k <= i < |ts| ==> ts[i] > start)
  {
    if ts != [] {
      var n := |ts| - 1;
      PruneIsTail(ts[..n], start);
      var k := n - |Prune(ts[..n], start)|;
      if ts[n] > start {
      } else {
        assert k == n;
      }
    }
  }

  /** At clock reading `now`: the stored list is the full log cut to the last 60 seconds, the log is in order
      and not ahead of the clock. */
  ghost predicate RecentLog(limit: nat, st: State, now: real) {
    && Ascending(st.log) && |st.window| <= limit && st.window == Prune(st.log, now - WINDOW)
    && forall i :: 0 <= i < |st.log| ==> st.log[i] <= now
  }

  function After(limit: nat, st: State, now: real): State
    requires limit > 0
  {
    var v := Check(limit, st.window, now);
    State(v.window, if v.allowed then st.log + [now] else st.log)
  }

  lemma {:induction false} PruneSnoc(ts: seq<real>, x: real, start: real)
    ensures Prune(ts + [x], start) == Prune(ts, start) + if x > start then [x] else []
  {
    assert (ts + [x])[..|ts|] == ts;
  }

  lemma {:induction false} PruneSize(ts: seq<real>, start: real)
    ensures |Prune(ts, start)| <= |ts|
  {
    if ts != [] { PruneSize(ts[..|ts| - 1], start); }
  }

  lemma {:induction false} RecentLogStep(limit: nat, st: State, last: real, now: real)
    requires limit > 0 && RecentLog(limit, st, last) && last <= now
    ensures RecentLog(limit, After(limit, st, now), now)
    ensures Prune(st.window, now - WINDOW) == Prune(st.log, now - WINDOW)
  {
    PruneTwice(st.log, last - WINDOW, now - WINDOW);
    PruneSize(st.window, now - WINDOW);
    PruneSnoc(st.log, now, now - WINDOW);
    assert Ascending(st.log + [now]);
  }

  lemma {:induction false} WindowIsRecentLog(limit: nat, times: seq<real>)
    requires limit > 0 && times != [] && Ascending(times)
    ensures RecentLog(limit, Run(limit, times), times[|times| - 1])
  {
    var n := |times| - 1;
    var now := times[n];
    if n == 0 {
      assert RecentLog(limit, State([], []), now);
      assert Run(limit, times[..0]) == State([], []);
      RecentLogStep(limit, State([], []), now, now);
    } else {
      WindowIsRecentLog(limit, times[..n]);
      RecentLogStep(limit, Run(limit, times[..n]), times[n - 1], now);
    }
  }

  /** Among any `limit + 1` consecutive admissions the first and the last are at least 60 seconds apart. */
  lemma {:induction false} AdmissionsAreSpaced(limit: nat, times: seq<real>, i: nat)
    requires limit > 0 && Ascending(times) && i + limit < |Run(limit, times).log|
    ensures Run(limit, times).log[i + limit] - Run(limit, times).log[i] >= 60.0
  {
    var n := |times| - 1;
    var st := Run(limit, times[..n]);
    assert Ascending(times[..n]);
    if i + limit < |st.log| {
      AdmissionsAreSpaced(limit, times[..n], i);
    } else {
      WindowIsRecentLog(limit, times[..n]);
      NewAdmissionIsSpaced(limit, st, times[n - 1], times[n], i);
    }
  }

  lemma {:induction false} NewAdmissionIsSpaced(limit: nat, st: State, last: real, now: real, i: nat)
    requires limit > 0 && RecentLog(limit, st, last) && last <= now
    requires Check(limit, st.window, now).allowed && i + limit == |st.log|
    ensures now - st.log[i] >= WINDOW
  {
    RecentLogStep(limit, st, last, now);
    PruneIsTail(st.log, now - WINDOW);
  }

  // ---------------------------------------------------------------- refusals

  lemma {:induction false} RefusedWindow(limit: nat, st: State, last: real, now: real)
    requires limit > 0 && RecentLog(limit, st, last) && last <= now && !Check(limit, st.window, now).allowed
    ensures var w := Check(limit, st.window, now).window;
      |w| == limit && Ascending(w) && forall i :: 0 <= i < |w| ==> now - WINDOW < w[i] <= now
  {
    RecentLogStep(limit, st, last, now);
    PruneSize(st.window, now - WINDOW);
    PruneIsTail(st.log, now - WINDOW);
  }

  /** A client refused at `now` is admitted again exactly once its oldest remembered admission is 60 seconds old. */
  lemma {:induction false} AdmittedAgainIff(limit: nat, st: State, last: real, now: real, later: real)
    requires limit > 0 && RecentLog(limit, st, last) && last <= now <= later && !Check(limit, st.window, now).allowed
    ensures var w := Check(limit, st.window, now).window;
      |w| == limit && (Check(limit, w, later).allowed <==> later >= w[0] + 60.0)
  {
    RefusedWindow(limit, st, last, now);
    PruneIsTail(Check(limit, st.window, now).window, later - WINDOW);
  }

  lemma {:induction false} RetryAfterIs(oldest: real, now: real)
    requires oldest <= now < oldest + WINDOW
    ensures var needed, r := oldest + 60.0 - now, RetryAfter(oldest, now);
      && 1 <= r <= 61 && (r - 1) as real <= needed < r as real
      && ((r - 1) as real < needed <==> needed != needed.Floor as real)
  {
    assert WINDOW - (now - oldest) == oldest + WINDOW - now;
  }

  /** The advice given with a refusal is between 1 and 61 and exceeds the remaining time by at most a second, which fixes
      it; it is the least whole number of seconds that is enough exactly when the remaining time is not whole. */
  lemma {:induction false} RetryAfterBounds(limit: nat, st: State, last: real, now: real)
    requires limit > 0 && RecentLog(limit, st, last) && last <= now && !Check(limit, st.window, now).allowed
    ensures var v := Check(limit, st.window, now);
      var needed, r := v.window[0] + 60.0 - now, v.retryAfter;
      && 1 <= r <= 61 && (r - 1) as real <= needed < r as real
      && ((r - 1) as real < needed <==> needed != needed.Floor as real)
  {
    RefusedWindow(limit, st, last, now);
    RetryAfterIs(Check(limit, st.window, now).window[0], now);
  }

  ghost predicate AdviceHolds(limit: nat, st: State, now: real)
    requires limit > 0
  {
    var v := Check(limit, st.window, now);
    1 <= v.retryAfter <= 61 && Check(limit, v.window, now + v.retryAfter as real).allowed
  }

  /** So a client that is refused and waits the advised time, with no competing request, is admitted. */
  lemma {:induction false} WaitingIsEnough(limit: nat, times: seq<real>, now: real)
    requires limit > 0 && times != [] && Ascending(times) && times[|times| - 1] <= now
    requires !Check(limit, Run(limit, times).window, now).allowed
    ensures AdviceHolds(limit, Run(limit, times), now)
  {
    WindowIsRecentLog(limit, times);
    AdviceIsEnough(limit, Run(limit, times), times[|times| - 1], now);
  }

  lemma {:induction false} AdviceIsEnough(limit: nat, st: State, last: real, now: real)
    requires limit > 0 && RecentLog(limit, st, last) && last <= now && !Check(limit, st.window, now).allowed
    ensures AdviceHolds(limit, st, now)
  {
    RetryAfterBounds(limit, st, last, now);
    AdmittedAgainIff(limit, st, last, now, now + Check(limit, st.window, now).retryAfter as real);
  }
}
