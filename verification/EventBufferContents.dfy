/** Which of repeated arrivals the reorder buffer holds and releases. */
module EventBufferContents {
  import opened Wrappers
  import opened EventBuffer
  import opened EventBufferRuns

  /** Of the first `m` events, `j` is the last with sequence `k`. */
  ghost predicate LastAt<P>(events: seq<Event<P>>, m: nat, k: int, j: int) {
    0 <= j < m <= |events| && events[j].sequence == k && forall i :: j < i < m ==> events[i].sequence != k
  }

  ghost predicate LatestIs<P>(events: seq<Event<P>>, m: nat, k: int, a: Arrival<P>) {
    exists j :: LastAt(events, m, k, j) && a == Arrival(events[j].payload, events[j].now)
  }

  ghost predicate LatestPayload<P>(events: seq<Event<P>>, m: nat, k: int, p: P) {
    exists j :: LastAt(events, m, k, j) && p == events[j].payload
  }

  /** All of 0 .. k are among the first `m` events. */
  ghost predicate CompleteAt<P>(events: seq<Event<P>>, m: nat, k: int) {
    m <= |events| && forall i :: 0 <= i <= k ==> Arrived(events[..m], i)
  }

  /** The event that completes 0 .. k releases `p`, the latest payload that has come for `k` by then. */
  ghost predicate ReleasedAs<P>(events: seq<Event<P>>, k: int, p: P) {
    exists m: nat :: 0 < m && CompleteAt(events, m, k) && !CompleteAt(events, m - 1, k) && LatestPayload(events, m, k, p)
  }

  /** Whatever is held is the latest arrival for its sequence, and whatever has been released was when it was. */
  ghost predicate Latest<P>(events: seq<Event<P>>, o: Outcome<P>) {
    && (forall k :: k in o.lane.slots ==> LatestIs(events, |events|, k, o.lane.slots[k]))
    && (forall k :: 0 <= k < |o.released| ==> ReleasedAs(events, k, o.released[k]))
  }

  lemma {:induction false} LastInLonger<P>(events: seq<Event<P>>, n: nat, m: nat, k: int, j: int)
    requires m <= n <= |events|
    ensures LastAt(events[..n], m, k, j) <==> LastAt(events, m, k, j)
  {
  }

  lemma {:induction false} ReleasedInLonger<P>(events: seq<Event<P>>, n: nat, k: int, p: P)
    requires n <= |events| && ReleasedAs(events[..n], k, p)
    ensures ReleasedAs(events, k, p)
  {
    var before := events[..n];
    var m: nat :| 0 < m && CompleteAt(before, m, k) && !CompleteAt(before, m - 1, k) && LatestPayload(before, m, k, p);
    var j :| LastAt(before, m, k, j) && p == before[j].payload;
    assert before[..m] == events[..m] && before[..m - 1] == events[..m - 1];
    LastInLonger(events, n, m, k, j);
    assert CompleteAt(events, m, k) && !CompleteAt(events, m - 1, k);
    assert LatestPayload(events, m, k, p);
  }

  lemma {:induction false} HeldInLonger<P>(events: seq<Event<P>>, k: int, a: Arrival<P>)
    requires events != [] && LatestIs(events[..|events| - 1], |events| - 1, k, a) && events[|events| - 1].sequence != k
    ensures LatestIs(events, |events|, k, a) && LatestPayload(events, |events|, k, a.payload)
  {
    var n := |events| - 1;
    var j :| LastAt(events[..n], n, k, j) && a == Arrival(events[..n][j].payload, events[..n][j].now);
    assert LastAt(events, |events|, k, j);
  }

  lemma {:induction false} NewestIsLatest<P>(events: seq<Event<P>>)
    requires events != []
    ensures var e := events[|events| - 1];
      && LatestIs(events, |events|, e.sequence, Arrival(e.payload, e.now))
      && LatestPayload(events, |events|, e.sequence, e.payload)
  {
    assert LastAt(events, |events|, events[|events| - 1].sequence, |events| - 1);
  }

  /** In runs without eviction or timeout, repeated and late arrivals included. */
  lemma {:induction false} UnforcedRunLatest<P>(lim: Limits, events: seq<Event<P>>)
    requires Unforced(lim, events)
    ensures Latest(events, Run(lim, events))
  {
    if events != [] {
      var n := |events| - 1;
      UnforcedRunLatest(lim, events[..n]);
      UnforcedRunGapFree(lim, events[..n]);
      var o, e := Run(lim, events[..n]), events[n];
      if e.sequence == o.lane.next {
        AcceptedLatest(lim, events, o);
      } else {
        HeldLatest(lim, events, o);
      }
    }
  }

  lemma {:induction false} HeldLatest<P>(lim: Limits, events: seq<Event<P>>, o: Outcome<P>)
    requires events != [] && Latest(events[..|events| - 1], o) && GapFree(events[..|events| - 1], o)
    requires var e := events[|events| - 1]; !Forced(lim, o.lane, e.now) && e.sequence != o.lane.next
    ensures var s := StepEvent(lim, o.lane, events[|events| - 1]); Latest(events, Outcome(s.lane, o.released + s.released))
  {
    var n := |events| - 1;
    var s := StepEvent(lim, o.lane, events[n]);
    assert o.released + s.released == o.released;
    NewestIsLatest(events);
    forall k | k in s.lane.slots ensures LatestIs(events, |events|, k, s.lane.slots[k]) {
      if k != events[n].sequence { HeldInLonger(events, k, o.lane.slots[k]); }
    }
    forall k | 0 <= k < |o.released| ensures ReleasedAs(events, k, o.released[k]) {
      ReleasedInLonger(events, n, k, o.released[k]);
    }
  }

  lemma {:induction false} AcceptedLatest<P>(lim: Limits, events: seq<Event<P>>, o: Outcome<P>)
    requires events != [] && Latest(events[..|events| - 1], o) && GapFree(events[..|events| - 1], o)
    requires var e := events[|events| - 1]; !Forced(lim, o.lane, e.now) && e.sequence == o.lane.next
    ensures var s := StepEvent(lim, o.lane, events[|events| - 1]); Latest(events, Outcome(s.lane, o.released + s.released))
  {
    var n := |events| - 1;
    var s := StepEvent(lim, o.lane, events[n]);
    var all := o.released + s.released;
    DrainSpec(o.lane.slots, events[n].sequence + 1);
    forall k | k in s.lane.slots ensures LatestIs(events, |events|, k, s.lane.slots[k]) {
      HeldInLonger(events, k, o.lane.slots[k]);
    }
    forall k | 0 <= k < |all| ensures ReleasedAs(events, k, all[k]) {
      if k < |o.released| {
        ReleasedInLonger(events, n, k, o.released[k]);
      } else {
        DrainedLatest(lim, events, o, k);
        assert all[k] == s.released[k - |o.released|];
      }
    }
  }

  lemma {:induction false} AcceptedReleases<P>(lim: Limits, lane: Lane<P>, e: Event<P>)
    requires !Forced(lim, lane, e.now) && e.sequence == lane.next
    ensures var s := StepEvent(lim, lane, e);
      && |s.released| == s.lane.next - lane.next > 0 && s.released[0] == e.payload
      && forall k :: lane.next < k < s.lane.next ==> k in lane.slots && s.released[k - lane.next] == lane.slots[k].payload
  {
    DrainSpec(lane.slots, e.sequence + 1);
    var s, d := StepEvent(lim, lane, e), Drain(lane.slots, e.sequence + 1);
    forall k | lane.next < k < s.lane.next
      ensures k in lane.slots && s.released[k - lane.next] == lane.slots[k].payload
    {
      assert s.released[k - lane.next] == d.released[k - (lane.next + 1)];
    }
  }

  /** What the last event releases: its own payload, or one that was held. */
  lemma {:induction false} DrainedLatest<P>(lim: Limits, events: seq<Event<P>>, o: Outcome<P>, k: int)
    requires events != [] && Latest(events[..|events| - 1], o) && GapFree(events[..|events| - 1], o)
    requires var e := events[|events| - 1]; !Forced(lim, o.lane, e.now) && e.sequence == o.lane.next
    requires var s := StepEvent(lim, o.lane, events[|events| - 1]); o.lane.next <= k < o.lane.next + |s.released|
    ensures ReleasedAs(events, k, StepEvent(lim, o.lane, events[|events| - 1]).released[k - o.lane.next])
  {
    var e := events[|events| - 1];
    var s := StepEvent(lim, o.lane, e);
    AcceptedReleases(lim, o.lane, e);
    ReleasedNow(events, o, k, s.lane.next);
    if k == o.lane.next {
      NewestIsLatest(events);
      CompletedBy(events, k, e.payload);
    } else {
      HeldInLonger(events, k, o.lane.slots[k]);
      CompletedBy(events, k, o.lane.slots[k].payload);
    }
  }

  lemma {:induction false} CompletedBy<P>(events: seq<Event<P>>, k: int, p: P)
    requires events != [] && CompleteAt(events, |events|, k) && !CompleteAt(events, |events| - 1, k)
    requires LatestPayload(events, |events|, k, p)
    ensures ReleasedAs(events, k, p)
  {
  }

  /** What the last event releases was not complete before it, and is now. */
  lemma {:induction false} ReleasedNow<P>(events: seq<Event<P>>, o: Outcome<P>, k: int, next: int)
    requires events != [] && GapFree(events[..|events| - 1], o) && o.lane.next <= k < next
    requires events[|events| - 1].sequence == o.lane.next
    requires forall i :: o.lane.next < i < next ==> i in o.lane.slots
    ensures CompleteAt(events, |events|, k) && !CompleteAt(events, |events| - 1, k)
  {
    var n := |events| - 1;
    assert events[..|events|] == events;
    forall i | 0 <= i <= k ensures Arrived(events, i) {
      if i < o.lane.next {
        assert Came(events[..n], i, o.released[i]);
        var j :| 0 <= j < n && events[..n][j].sequence == i;
        assert events[j].sequence == i;
      } else if i == o.lane.next {
        assert events[n].sequence == i;
      } else {
        assert i in o.lane.slots && Arrived(events[..n], i);
        var j :| 0 <= j < n && events[..n][j].sequence == i;
        assert events[j].sequence == i;
      }
    }
    assert !Arrived(events[..n], o.lane.next);
  }
}
