/** What the reorder buffer does over whole runs of calls for one entity. */
module EventBufferRuns {
  import opened Wrappers
  import opened EventBuffer

  datatype Event<P> = Event(sequence: int, payload: P, now: real)

  /** The lane after a run, and everything the calls returned, concatenated. */
  function Run<P>(lim: Limits, events: seq<Event<P>>): Outcome<P> {
    if events == [] then Outcome(Fresh(), [])
    else
      var n := |events| - 1;
      var before := Run(lim, events[..n]);
      var after := StepEvent(lim, before.lane, events[n]);
      Outcome(after.lane, before.released + after.released)
  }

  function StepEvent<P>(lim: Limits, lane: Lane<P>, e: Event<P>): Outcome<P> {
    Step(lim, lane, e.sequence, e.payload, e.now)
  }

  ghost predicate Arrived<P>(events: seq<Event<P>>, k: int) {
    exists j :: 0 <= j < |events| && events[j].sequence == k
  }

  ghost predicate Came<P>(events: seq<Event<P>>, k: int, p: P) {
    exists j :: 0 <= j < |events| && events[j].sequence == k && events[j].payload == p
  }

  ghost predicate MonotoneClock<P>(events: seq<Event<P>>) {
    forall i, j :: 0 <= i <= j < |events| ==> events[i].now <= events[j].now
  }

  // ---------------------------------------------------------------- draining

  lemma {:induction false} DrainSpec<P>(slots: map<int, Arrival<P>>, next: int)
    ensures var d := Drain(slots, next);
      && d.next >= next && d.next !in slots
      && |d.released| == d.next - next
      && (forall k :: next <= k < d.next ==> k in slots && d.released[k - next] == slots[k].payload)
      && (forall k :: k in d.slots <==> k in slots && !(next <= k < d.next))
      && (forall k :: k in d.slots ==> d.slots[k] == slots[k])
      && d.slots.Keys <= slots.Keys
    decreases |slots|
  {
    if next in slots {
      assert (slots - {next}).Keys == slots.Keys - {next};
      DrainSpec(slots - {next}, next + 1);
      var d, rest := Drain(slots, next), Drain(slots - {next}, next + 1);
      forall k | next <= k < d.next ensures k in slots && d.released[k - next] == slots[k].payload {
        if k > next {
          assert k in slots - {next};
          assert rest.released[k - (next + 1)] == d.released[k - next];
        }
      }
    }
  }

  // ---------------------------------------------------------------- invariants of every run

  /** Buffered sequences are ahead of the expected one, the buffer respects its bound, and the
      oldest-arrival stamp exists exactly when something is buffered. */
  ghost predicate LaneValid<P>(lim: Limits, lane: Lane<P>) {
    && (forall k :: k in lane.slots ==> k > lane.next)
    && |lane.slots| <= (if lim.maxSize < 0 then 0 else lim.maxSize)
    && (lane.oldest.Some? <==> lane.slots != map[])
  }

  /** No buffered arrival is older than the stamp or younger than the clock. */
  ghost predicate StampBounds<P>(lane: Lane<P>, now: real) {
    forall k :: k in lane.slots ==> lane.oldest.Some? && lane.oldest.value <= lane.slots[k].at <= now
  }

  lemma {:induction false} StepValid<P>(lim: Limits, lane: Lane<P>, e: Event<P>, last: real)
    requires LaneValid(lim, lane) && StampBounds(lane, last) && last <= e.now
    ensures var after := StepEvent(lim, lane, e).lane; LaneValid(lim, after) && StampBounds(after, e.now)
  {
    if !Forced(lim, lane, e.now) {
      if e.sequence == lane.next { AcceptedStepValid(lim, lane, e, last); }
      if e.sequence > lane.next { HeldStepValid(lim, lane, e, last); }
    }
  }

  lemma {:induction false} AcceptedStepValid<P>(lim: Limits, lane: Lane<P>, e: Event<P>, last: real)
    requires LaneValid(lim, lane) && StampBounds(lane, last) && last <= e.now
    requires !Forced(lim, lane, e.now) && e.sequence == lane.next
    ensures var after := StepEvent(lim, lane, e).lane; LaneValid(lim, after) && StampBounds(after, e.now)
  {
    DrainSpec(lane.slots, e.sequence + 1);
    DrainShrinks(lane.slots, e.sequence + 1);
  }

  lemma {:induction false} HeldStepValid<P>(lim: Limits, lane: Lane<P>, e: Event<P>, last: real)
    requires LaneValid(lim, lane) && StampBounds(lane, last) && last <= e.now
    requires !Forced(lim, lane, e.now) && e.sequence > lane.next
    ensures var after := StepEvent(lim, lane, e).lane; LaneValid(lim, after) && StampBounds(after, e.now)
  {
    var after := StepEvent(lim, lane, e).lane;
    assert after.slots.Keys == lane.slots.Keys + {e.sequence};
    assert e.sequence in after.slots;
    if lane.slots != map[] {
      var first := PickElement(lane.slots.Keys);
      assert lane.oldest.value <= lane.slots[first].at;
    }
    forall k | k in after.slots ensures after.oldest.Some? && after.oldest.value <= after.slots[k].at <= e.now {
      if k != e.sequence {
        assert k in lane.slots && after.slots[k] == lane.slots[k];
      }
    }
  }

  lemma {:induction false} RunValid<P>(lim: Limits, events: seq<Event<P>>)
    requires MonotoneClock(events)
    ensures LaneValid(lim, Run(lim, events).lane)
    ensures events != [] ==> StampBounds(Run(lim, events).lane, events[|events| - 1].now)
  {
    if events != [] {
      var n := |events| - 1;
      RunValid(lim, events[..n]);
      StepValid(lim, Run(lim, events[..n]).lane, events[n], if n == 0 then events[n].now else events[n - 1].now);
    }
  }

  /** After the last call nothing buffered is as old as the timeout. */
  ghost predicate NothingStale<P>(lim: Limits, events: seq<Event<P>>) {
    var slots := Run(lim, events).lane.slots;
    forall k :: k in slots ==> events != [] && events[|events| - 1].now - slots[k].at < lim.timeout
  }

  lemma {:induction false} PromptRelease<P>(lim: Limits, events: seq<Event<P>>)
    requires MonotoneClock(events) && (lim.timeout > 0.0 || lim.maxSize <= 0)
    ensures NothingStale(lim, events)
  {
    RunValid(lim, events);
    if events != [] {
      var n := |events| - 1;
      RunValid(lim, events[..n]);
      StepReleasesStale(lim, Run(lim, events[..n]).lane, events[n], if n == 0 then events[n].now else events[n - 1].now);
    }
  }

  lemma {:induction false} StepReleasesStale<P>(lim: Limits, lane: Lane<P>, e: Event<P>, last: real)
    requires LaneValid(lim, lane) && StampBounds(lane, last) && last <= e.now && (lim.timeout > 0.0 || lim.maxSize <= 0)
    ensures var slots := StepEvent(lim, lane, e).lane.slots; forall k :: k in slots ==> e.now - slots[k].at < lim.timeout
  {
    if !Forced(lim, lane, e.now) && e.sequence == lane.next {
      DrainSpec(lane.slots, e.sequence + 1);
    }
  }

  /** The age bound holds in every run exactly when the timeout is positive or nothing may be buffered. */
  lemma {:induction false} PromptReleaseIff(lim: Limits)
    ensures (forall events: seq<Event<string>> :: MonotoneClock(events) ==> NothingStale(lim, events))
      <==> lim.timeout > 0.0 || lim.maxSize <= 0
  {
    if lim.timeout > 0.0 || lim.maxSize <= 0 {
      forall events: seq<Event<string>> | MonotoneClock(events) ensures NothingStale(lim, events) {
        PromptRelease(lim, events);
      }
    } else {
      var events := [Event(1, "ahead", 0.0)];
      assert events[..0] == [];
      assert Run(lim, events).lane.slots == map[1 := Arrival("ahead", 0.0)];
      assert MonotoneClock(events) && !NothingStale(lim, events);
    }
  }

  // ---------------------------------------------------------------- runs without eviction or timeout

  predicate Unforced<P>(lim: Limits, events: seq<Event<P>>) {
    events == [] ||
    var n := |events| - 1;
    Unforced(lim, events[..n]) && !Forced(lim, Run(lim, events[..n]).lane, events[n].now)
  }

  /** Exactly the sequences 0 .. next-1 have been released, in order and once each; `next` is the
      least one that has not arrived, and every arrival beyond it is still held. */
  ghost predicate GapFree<P>(events: seq<Event<P>>, o: Outcome<P>) {
    && o.lane.next >= 0 && |o.released| == o.lane.next
    && (forall k :: 0 <= k < o.lane.next ==> Came(events, k, o.released[k]))
    && !Arrived(events, o.lane.next)
    && (forall k :: k in o.lane.slots <==> k > o.lane.next && Arrived(events, k))
    && (forall k :: k in o.lane.slots ==> Came(events, k, o.lane.slots[k].payload))
  }

  lemma {:induction false} UnforcedRunGapFree<P>(lim: Limits, events: seq<Event<P>>)
    requires Unforced(lim, events)
    ensures GapFree(events, Run(lim, events))
  {
    if events != [] {
      var n := |events| - 1;
      UnforcedRunGapFree(lim, events[..n]);
      GapFreeStep(lim, events[..n], events, Run(lim, events[..n]), events[n]);
    }
  }

  lemma {:induction false} GapFreeStep<P>(lim: Limits, before: seq<Event<P>>, events: seq<Event<P>>, o: Outcome<P>, e: Event<P>)
    requires GapFree(before, o) && !Forced(lim, o.lane, e.now)
    requires forall k :: Arrived(events, k) <==> Arrived(before, k) || k == e.sequence
    requires forall k, p :: Came(before, k, p) ==> Came(events, k, p)
    requires Came(events, e.sequence, e.payload)
    ensures var s := StepEvent(lim, o.lane, e);
      GapFree(events, Outcome(s.lane, o.released + s.released))
  {
    var s := StepEvent(lim, o.lane, e);
    if e.sequence == o.lane.next {
      DrainSpec(o.lane.slots, e.sequence + 1);
      ReleasedCame(lim, before, events, o, e);
    } else {
      assert o.released + s.released == o.released;
    }
  }

  lemma {:induction false} ReleasedCame<P>(lim: Limits, before: seq<Event<P>>, events: seq<Event<P>>, o: Outcome<P>, e: Event<P>)
    requires GapFree(before, o) && !Forced(lim, o.lane, e.now) && e.sequence == o.lane.next
    requires forall k, p :: Came(before, k, p) ==> Came(events, k, p)
    requires Came(events, e.sequence, e.payload)
    ensures var s := StepEvent(lim, o.lane, e);
      var all := o.released + s.released;
      |all| == s.lane.next && forall k :: 0 <= k < s.lane.next ==> Came(events, k, all[k])
  {
    DrainSpec(o.lane.slots, e.sequence + 1);
    var s := StepEvent(lim, o.lane, e);
    var all := o.released + s.released;
    forall k | 0 <= k < s.lane.next ensures Came(events, k, all[k]) {
      if k < o.lane.next {
        assert all[k] == o.released[k];
      } else if k > o.lane.next {
        assert all[k] == o.lane.slots[k].payload;
      }
    }
  }

  // ---------------------------------------------------------------- order independence

  /** The sequences are 0 .. n-1 in some order. */
  ghost predicate Permutation<P>(events: seq<Event<P>>) {
    && (forall i :: 0 <= i < |events| ==> 0 <= events[i].sequence < |events|)
    && (forall i, j :: 0 <= i < j < |events| ==> events[i].sequence != events[j].sequence)
  }

  /** Any two arrivals are less than the timeout apart. */
  ghost predicate WithinTimeout<P>(lim: Limits, events: seq<Event<P>>) {
    forall i, j :: 0 <= i <= j < |events| ==> events[j].now - events[i].now < lim.timeout
  }

  /** Every call's worth of buffering is at most one event, and the stamp is some arrival's time. */
  lemma {:induction false} BufferGrowth<P>(lim: Limits, events: seq<Event<P>>)
    ensures |Run(lim, events).lane.slots| <= |events|
    ensures ArrivedAt(events, Run(lim, events).lane.oldest)
  {
    if events != [] {
      var n := |events| - 1;
      BufferGrowth(lim, events[..n]);
      StepGrowth(lim, Run(lim, events[..n]).lane, events[n]);
    }
  }

  lemma {:induction false} StepGrowth<P>(lim: Limits, lane: Lane<P>, e: Event<P>)
    ensures var after := StepEvent(lim, lane, e).lane;
      && |after.slots| <= |lane.slots| + 1
      && (after.oldest.Some? ==> after.oldest == lane.oldest || after.oldest.value == e.now)
  {
    if !Forced(lim, lane, e.now) {
      if e.sequence == lane.next { DrainShrinks(lane.slots, e.sequence + 1); }
    }
  }

  lemma {:induction false} DrainShrinks<P>(slots: map<int, Arrival<P>>, next: int)
    ensures |Drain(slots, next).slots| <= |slots|
  {
    DrainSpec(slots, next);
    SubsetSize(Drain(slots, next).slots.Keys, slots.Keys);
  }

  ghost predicate ArrivedAt<P>(events: seq<Event<P>>, at: Option<real>) {
    at.Some? ==> exists j :: 0 <= j < |events| && events[j].now == at.value
  }

  lemma {:induction false} SmallPromptRunUnforced<P>(lim: Limits, events: seq<Event<P>>)
    requires |events| <= lim.maxSize && WithinTimeout(lim, events)
    ensures Unforced(lim, events)
  {
    if events != [] {
      var n := |events| - 1;
      SmallPromptRunUnforced(lim, events[..n]);
      BufferGrowth(lim, events[..n]);
    }
  }

  ghost function Sequences<P>(events: seq<Event<P>>): set<int> {
    set i | 0 <= i < |events| :: events[i].sequence
  }

  lemma {:induction false} DistinctSequences<P>(events: seq<Event<P>>)
    requires forall i, j :: 0 <= i < j < |events| ==> events[i].sequence != events[j].sequence
    ensures |Sequences(events)| == |events|
  {
    if events != [] {
      var n := |events| - 1;
      DistinctSequences(events[..n]);
      assert Sequences(events) == Sequences(events[..n]) + {events[n].sequence} by {
        assert forall i :: 0 <= i < n ==> events[..n][i] == events[i];
      }
    }
  }

  lemma {:induction false} BelowSize(n: nat) returns (s: set<int>)
    ensures (forall k :: k in s <==> 0 <= k < n) && |s| == n
  {
    if n == 0 {
      s := {};
    } else {
      var t := BelowSize(n - 1);
      s := t + {n - 1};
    }
  }

  /** A permutation of 0 .. n-1 misses none of them. */
  lemma {:induction false} PermutationComplete<P>(events: seq<Event<P>>, k: int)
    requires Permutation(events) && 0 <= k < |events|
    ensures Arrived(events, k)
  {
    DistinctSequences(events);
    var all := BelowSize(|events|);
    var seen := Sequences(events);
    if k !in seen {
      SubsetSize(seen, all - {k});
    }
  }

  /** Whatever the arrival order, the calls together return the payloads in sequence order,
      each exactly once, and nothing stays behind. */
  lemma {:induction false} OrderIndependence<P>(lim: Limits, events: seq<Event<P>>)
    requires Permutation(events) && |events| <= lim.maxSize && WithinTimeout(lim, events)
    ensures var o := Run(lim, events);
      && |o.released| == |events|
      && (forall j :: 0 <= j < |events| ==> o.released[events[j].sequence] == events[j].payload)
      && o.lane.slots == map[] && o.lane.next == |events|
  {
    SmallPromptRunUnforced(lim, events);
    UnforcedRunGapFree(lim, events);
    var o := Run(lim, events);
    assert o.lane.next == 0 || Came(events, o.lane.next - 1, o.released[o.lane.next - 1]);
    if o.lane.next < |events| { PermutationComplete(events, o.lane.next); }
    if o.lane.slots != map[] {
      var k := PickElement(o.lane.slots.Keys);
    }
    forall j | 0 <= j < |events| ensures o.released[events[j].sequence] == events[j].payload {
      assert Came(events, events[j].sequence, o.released[events[j].sequence]);
    }
  }

  // ---------------------------------------------------------------- eviction and timeout

  /** The sequence numbers of what a forced call returns, in the order it returns them. */
  function ForcedOrder<P>(lane: Lane<P>, sequence: int): seq<int> {
    SortedKeys(lane.slots.Keys) + [sequence]
  }

  /** A forced call returns everything buffered in strictly increasing sequence, then the current event. */
  lemma {:induction false} ForcedRelease<P>(lim: Limits, lane: Lane<P>, e: Event<P>)
    requires Forced(lim, lane, e.now)
    ensures var o, keys := StepEvent(lim, lane, e), SortedKeys(lane.slots.Keys);
      && o.lane.slots == map[]
      && StrictlyIncreasing(keys) && |keys| == |lane.slots| == |o.released| - 1
      && (forall k :: k in lane.slots ==> k in keys)
      && (forall i :: 0 <= i < |keys| ==> keys[i] in lane.slots && o.released[i] == lane.slots[keys[i]].payload)
      && o.released[|keys|] == e.payload
  {
    SortedKeysIncreasing(lane.slots.Keys);
    SortedKeysComplete(lane.slots.Keys);
  }

  /** The whole list is in order exactly when the current event is beyond everything buffered. */
  lemma {:induction false} ForcedReleaseInOrderIff<P>(lane: Lane<P>, sequence: int)
    ensures StrictlyIncreasing(ForcedOrder(lane, sequence)) <==> forall k :: k in lane.slots ==> k < sequence
  {
    var keys := SortedKeys(lane.slots.Keys);
    SortedKeysIncreasing(lane.slots.Keys);
    SortedKeysComplete(lane.slots.Keys);
    AppendIncreasing(keys, sequence);
    assert forall k :: k in lane.slots ==> k in keys;
    assert forall i :: 0 <= i < |keys| ==> keys[i] in lane.slots;
  }

  lemma {:induction false} AppendIncreasing(keys: seq<int>, x: int)
    requires StrictlyIncreasing(keys)
    ensures StrictlyIncreasing(keys + [x]) <==> forall i :: 0 <= i < |keys| ==> keys[i] < x
  {
    var all := keys + [x];
    if StrictlyIncreasing(all) {
      forall i | 0 <= i < |keys| ensures keys[i] < x {
        assert all[i] < all[|keys|];
      }
    }
  }

  lemma {:induction false} SortedKeysComplete(s: set<int>)
    ensures forall k :: k in s ==> k in SortedKeys(s)
  {
    if s != {} {
      var m := Least(s);
      SortedKeysComplete(s - {m});
      assert forall k :: k in s ==> k == m || k in s - {m};
    }
  }

  /** The expected sequence falls back exactly when a late event comes in on a forced call. */
  lemma {:induction false} ExpectedFallsBackIff<P>(lim: Limits, lane: Lane<P>, e: Event<P>)
    ensures StepEvent(lim, lane, e).lane.next < lane.next <==> Forced(lim, lane, e.now) && e.sequence + 1 < lane.next
  {
    DrainSpec(lane.slots, e.sequence + 1);
  }

  // ---------------------------------------------------------------- at most once, in order

  /** The sequence numbers of what a call returns, in the order it returns them. */
  function StepSequences<P>(lim: Limits, lane: Lane<P>, e: Event<P>): seq<int> {
    if Forced(lim, lane, e.now) then ForcedOrder(lane, e.sequence)
    else if e.sequence == lane.next then
      seq(|Drain(lane.slots, e.sequence + 1).released| + 1, i => e.sequence + i)
    else []
  }

  /** The sequence numbers of everything a run has released. */
  function ReleasedSequences<P>(lim: Limits, events: seq<Event<P>>): seq<int> {
    if events == [] then []
    else
      var n := |events| - 1;
      ReleasedSequences(lim, events[..n]) + StepSequences(lim, Run(lim, events[..n]).lane, events[n])
  }

  lemma {:induction false} AcceptedMatch<P>(lane: Lane<P>, e: Event<P>, i: nat)
    requires i < |Drain(lane.slots, e.sequence + 1).released|
    ensures var k := e.sequence + 1 + i;
      k in lane.slots && Drain(lane.slots, e.sequence + 1).released[i] == lane.slots[k].payload
  {
    DrainSpec(lane.slots, e.sequence + 1);
    var d := Drain(lane.slots, e.sequence + 1);
    assert d.released[i] == d.released[(e.sequence + 1 + i) - (e.sequence + 1)];
  }

  /** Position by position they are the numbers of the payloads returned. */
  lemma {:induction false} StepSequencesMatch<P>(lim: Limits, lane: Lane<P>, e: Event<P>, i: nat)
    requires i < |StepSequences(lim, lane, e)|
    ensures var o, ks := StepEvent(lim, lane, e).released, StepSequences(lim, lane, e);
      && |o| == |ks|
      && ((ks[i] == e.sequence && o[i] == e.payload) || (ks[i] in lane.slots && o[i] == lane.slots[ks[i]].payload))
  {
    if !Forced(lim, lane, e.now) && 0 < i { AcceptedMatch(lane, e, i - 1); }
  }

  /** As many numbers as payloads; the last is the one before the number expected afterwards. */
  lemma {:induction false} StepSequencesEnd<P>(lim: Limits, lane: Lane<P>, e: Event<P>)
    ensures var s, ks := StepEvent(lim, lane, e), StepSequences(lim, lane, e);
      |ks| == |s.released| && s.lane.next == if ks == [] then lane.next else ks[|ks| - 1] + 1
  {
    if !Forced(lim, lane, e.now) && e.sequence == lane.next {
      DrainSpec(lane.slots, e.sequence + 1);
    }
  }

  /** Everything buffered is ahead, and the last number released is the one before the expected one. */
  ghost predicate ReleaseState<P>(o: Outcome<P>, ks: seq<int>) {
    && (forall k :: k in o.lane.slots ==> k > o.lane.next)
    && |ks| == |o.released|
    && (if ks == [] then o.lane.next == 0 else ks[|ks| - 1] == o.lane.next - 1)
  }

  lemma {:induction false} ReleaseStep<P>(lim: Limits, o: Outcome<P>, ks: seq<int>, e: Event<P>)
    requires ReleaseState(o, ks)
    ensures var s := StepEvent(lim, o.lane, e);
      ReleaseState(Outcome(s.lane, o.released + s.released), ks + StepSequences(lim, o.lane, e))
  {
    StepSequencesEnd(lim, o.lane, e);
    StepKeepsAhead(lim, o.lane, e);
  }

  lemma {:induction false} StepKeepsAhead<P>(lim: Limits, lane: Lane<P>, e: Event<P>)
    requires forall k :: k in lane.slots ==> k > lane.next
    ensures var after := StepEvent(lim, lane, e).lane; forall k :: k in after.slots ==> k > after.next
  {
    if !Forced(lim, lane, e.now) && e.sequence == lane.next {
      DrainSpec(lane.slots, e.sequence + 1);
    }
  }

  lemma {:induction false} RunReleaseState<P>(lim: Limits, events: seq<Event<P>>)
    ensures ReleaseState(Run(lim, events), ReleasedSequences(lim, events))
  {
    if events != [] {
      var n := |events| - 1;
      RunReleaseState(lim, events[..n]);
      ReleaseStep(lim, Run(lim, events[..n]), ReleasedSequences(lim, events[..n]), events[n]);
    }
  }

  /** A forced call comes with an event that is beyond everything buffered and, unless nothing has been released
      yet, not before the expected one. */
  ghost predicate OrderedStep<P>(lim: Limits, before: Outcome<P>, e: Event<P>) {
    Forced(lim, before.lane, e.now) ==>
      && (before.released == [] || e.sequence >= before.lane.next)
      && forall k :: k in before.lane.slots ==> k < e.sequence
  }

  ghost predicate OrderedRun<P>(lim: Limits, events: seq<Event<P>>) {
    events == [] ||
    var n := |events| - 1;
    OrderedRun(lim, events[..n]) && OrderedStep(lim, Run(lim, events[..n]), events[n])
  }

  lemma {:induction false} ConcatIncreasing(a: seq<int>, b: seq<int>)
    ensures StrictlyIncreasing(a + b) <==>
      StrictlyIncreasing(a) && StrictlyIncreasing(b) && (a != [] && b != [] ==> a[|a| - 1] < b[0])
  {
    var c := a + b;
    if StrictlyIncreasing(c) {
      forall i, j | 0 <= i < j < |a| ensures a[i] < a[j] {
        assert c[i] < c[j];
      }
      forall i, j | 0 <= i < j < |b| ensures b[i] < b[j] {
        assert c[|a| + i] < c[|a| + j];
      }
      if a != [] && b != [] { assert c[|a| - 1] < c[|a|]; }
    } else if StrictlyIncreasing(a) && StrictlyIncreasing(b) {
      var i, j :| 0 <= i < j < |c| && c[i] >= c[j];
      assert i < |a| <= j;
      assert c[i] <= a[|a| - 1] && b[0] <= c[j];
    }
  }

  lemma {:induction false} OrderedStepIff<P>(lim: Limits, o: Outcome<P>, ks: seq<int>, e: Event<P>)
    requires ReleaseState(o, ks) && StrictlyIncreasing(ks)
    ensures StrictlyIncreasing(ks + StepSequences(lim, o.lane, e)) <==> OrderedStep(lim, o, e)
  {
    var next := StepSequences(lim, o.lane, e);
    ConcatIncreasing(ks, next);
    if Forced(lim, o.lane, e.now) {
      ForcedReleaseInOrderIff(o.lane, e.sequence);
      if o.lane.slots != map[] {
        var k := PickElement(o.lane.slots.Keys);
        assert next[0] in o.lane.slots;
      }
    }
  }

  /** In every run, whatever is forced out: each event is released at most once and in sequence order if and only
      if every forced call is an ordered one. */
  lemma {:induction false} ReleasedOnceInOrderIff<P>(lim: Limits, events: seq<Event<P>>)
    ensures StrictlyIncreasing(ReleasedSequences(lim, events)) <==> OrderedRun(lim, events)
  {
    if events != [] {
      var n := |events| - 1;
      var ks := ReleasedSequences(lim, events[..n]);
      ReleasedOnceInOrderIff(lim, events[..n]);
      RunReleaseState(lim, events[..n]);
      ConcatIncreasing(ks, StepSequences(lim, Run(lim, events[..n]).lane, events[n]));
      if StrictlyIncreasing(ks) { OrderedStepIff(lim, Run(lim, events[..n]), ks, events[n]); }
    }
  }

  /** A run that breaks it: the timeout lets an event through that was released before. */
  lemma {:induction false} ForcedCallCanRepeat()
    ensures exists lim: Limits, events: seq<Event<string>> ::
      MonotoneClock(events) && lim.timeout > 0.0 && lim.maxSize > 0 &&
      Run(lim, events).released == ["a", "c", "a"]
  {
    var lim := Limits(30.0, 100);
    var e0, e1, e2 := Event(0, "a", 0.0), Event(2, "c", 1.0), Event(0, "a", 31.0);
    var events := [e0, e1, e2];
    assert events[..2] == [e0, e1] && [e0, e1][..1] == [e0] && [e0][..0] == [];
    assert Run(lim, [e0]) == Outcome(Lane(map[], 1, None), ["a"]);
    var l := Lane(map[2 := Arrival("c", 1.0)], 1, Some(1.0));
    assert Run(lim, [e0, e1]) == Outcome(l, ["a"]);
    assert l.slots.Keys == {2};
    assert SortedKeys({2}) == [2] by { assert {2} - {2} == {}; assert Least({2}) in {2}; }
    assert Run(lim, events).released == ["a", "c", "a"];
    assert MonotoneClock(events);
  }
}
