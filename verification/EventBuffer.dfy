/** The reorder buffer of engine/src/inandout/ingestion/event_buffer.py. */
module EventBuffer {
  import opened Wrappers

  datatype Entity = Entity(connector: string, datatypeName: string, externalId: string)

  datatype Arrival<P> = Arrival(payload: P, at: real)

  datatype Limits = Limits(timeout: real, maxSize: int)

  /** The part of the three dictionaries that belongs to one entity. */
  datatype Lane<P> = Lane(slots: map<int, Arrival<P>>, next: int, oldest: Option<real>)

  datatype Drained<P> = Drained(released: seq<P>, slots: map<int, Arrival<P>>, next: int)

  datatype Outcome<P> = Outcome(lane: Lane<P>, released: seq<P>)

  // ---------------------------------------------------------------- one call, as a function

  ghost predicate StrictlyIncreasing(s: seq<int>) {
    forall i, j :: 0 <= i < j < |s| ==> s[i] < s[j]
  }

  lemma {:induction false} LeastExists(s: set<int>)
    requires s != {}
    ensures exists m :: m in s && forall k :: k in s ==> m <= k
  {
    var x := PickElement(s);
    var rest := s - {x};
    assert forall k :: k in s ==> k == x || k in rest;
    if rest == {} {
      assert x in s && forall k :: k in s ==> x <= k;
    } else {
      LeastExists(rest);
      var m :| m in rest && forall k :: k in rest ==> m <= k;
      var l := if x < m then x else m;
      assert l in s && forall k :: k in s ==> l <= k;
    }
  }

  function Least(s: set<int>): (m: int)
    requires s != {}
    ensures m in s && forall k :: k in s ==> m <= k
  {
    LeastExists(s);
    var m :| m in s && forall k :: k in s ==> m <= k;
    m
  }

  /** `sorted` on the keys of a dict of sequence numbers. */
  function SortedKeys(s: set<int>): (r: seq<int>)
    ensures forall i :: 0 <= i < |r| ==> r[i] in s
    ensures |r| == |s|
  {
    if s == {} then [] else var m := Least(s); [m] + SortedKeys(s - {m})
  }

  lemma {:induction false} SortedKeysIncreasing(s: set<int>)
    ensures StrictlyIncreasing(SortedKeys(s))
  {
    if s != {} {
      var m := Least(s);
      SortedKeysIncreasing(s - {m});
      var r := SortedKeys(s - {m});
      assert forall i :: 0 <= i < |r| ==> r[i] in r;
    }
  }

  function PayloadsAt<P>(slots: map<int, Arrival<P>>, keys: seq<int>): (ps: seq<P>)
    requires forall i :: 0 <= i < |keys| ==> keys[i] in slots
    ensures |ps| == |keys|
  {
    seq(|keys|, i requires 0 <= i < |keys| => slots[keys[i]].payload)
  }

  /** The consecutive run of buffered events that starts at `next`. */
  function Drain<P>(slots: map<int, Arrival<P>>, next: int): Drained<P>
    decreases |slots|
  {
    if next in slots then
      var d := Drain(slots - {next}, next + 1);
      Drained([slots[next].payload] + d.released, d.slots, d.next)
    else
      Drained([], slots, next)
  }

  /** The buffer is full, or its oldest entry has timed out: everything is released. */
  predicate Forced<P>(lim: Limits, lane: Lane<P>, now: real) {
    |lane.slots| >= lim.maxSize || (lane.oldest.Some? && now - lane.oldest.value >= lim.timeout)
  }

  function Step<P>(lim: Limits, lane: Lane<P>, sequence: int, payload: P, now: real): Outcome<P> {
    if Forced(lim, lane, now) then
      Outcome(Lane(map[], sequence + 1, if lane.slots == map[] then lane.oldest else None),
              PayloadsAt(lane.slots, SortedKeys(lane.slots.Keys)) + [payload])
    else if sequence == lane.next then
      var d := Drain(lane.slots, sequence + 1);
      Outcome(Lane(d.slots, d.next, if d.slots == map[] then None else lane.oldest), [payload] + d.released)
    else if sequence > lane.next then
      Outcome(Lane(lane.slots[sequence := Arrival(payload, now)], lane.next,
                   if lane.oldest.None? then Some(now) else lane.oldest), [])
    else
      Outcome(lane, [])
  }

  // ---------------------------------------------------------------- the class

  class Buffer<P> {
    const limits: Limits
    var buffer: map<Entity, map<int, Arrival<P>>>
    var nextSeq: map<Entity, int>
    var oldest: map<Entity, real>

    constructor (limits: Limits)
      ensures this.limits == limits && forall k :: LaneOf(k) == Fresh()
    {
      this.limits := limits;
      buffer, nextSeq, oldest := map[], map[], map[];
    }

    /** `self._buffer[key]` of a defaultdict. */
    function Slots(key: Entity): map<int, Arrival<P>>
      reads this`buffer
    {
      if key in buffer then buffer[key] else map[]
    }

    ghost function LaneOf(key: Entity): Lane<P>
      reads this
    {
      Lane(Slots(key),
           if key in nextSeq then nextSeq[key] else 0,
           if key in oldest then Some(oldest[key]) else None)
    }

    method BufferEvent(key: Entity, sequence: int, payload: P, now: real) returns (released: seq<P>)
      modifies this
      ensures Outcome(LaneOf(key), released) == Step(limits, old(LaneOf(key)), sequence, payload, now)
      ensures forall k :: k != key ==> LaneOf(k) == old(LaneOf(k))
    {
      if |Slots(key)| >= limits.maxSize {
        released := ReleaseAll(key, sequence, payload);
      } else if key in oldest && now - oldest[key] >= limits.timeout {
        released := ReleaseAll(key, sequence, payload);
      } else {
        var expected := if key in nextSeq then nextSeq[key] else 0;
        if sequence == expected {
          released := AcceptExpected(key, sequence, payload);
        } else if sequence > expected {
          buffer := buffer[key := Slots(key)[sequence := Arrival(payload, now)]];
          if key !in oldest {
            oldest := oldest[key := now];
          }
          released := [];
        } else {
          released := [];
        }
      }
    }

    /** The eviction and timeout branches: flush, then the current event. */
    method ReleaseAll(key: Entity, sequence: int, payload: P) returns (released: seq<P>)
      modifies this
      ensures released == PayloadsAt(old(Slots(key)), SortedKeys(old(Slots(key)).Keys)) + [payload]
      ensures LaneOf(key) == Lane(map[], sequence + 1, if old(Slots(key)) == map[] then old(LaneOf(key).oldest) else None)
      ensures forall k :: k != key ==> LaneOf(k) == old(LaneOf(k))
    {
      released := FlushBuffer(key);
      assert forall k :: k != key ==> LaneOf(k) == old(LaneOf(k));
      released := released + [payload];
      nextSeq := nextSeq[key := sequence + 1];
    }

    /** The in-order branch: the current event and the buffered ones that follow it without a gap. */
    method AcceptExpected(key: Entity, sequence: int, payload: P) returns (released: seq<P>)
      modifies this
      ensures var d := Drain(old(Slots(key)), sequence + 1);
        && released == [payload] + d.released
        && LaneOf(key) == Lane(d.slots, d.next, if d.slots == map[] then None else old(LaneOf(key).oldest))
      ensures forall k :: k != key ==> LaneOf(k) == old(LaneOf(k))
    {
      buffer := buffer[key := Slots(key)];
      nextSeq := nextSeq[key := sequence + 1];
      assert forall k :: k != key ==> LaneOf(k) == old(LaneOf(k));
      var following := ReleaseConsecutive(key);
      assert forall k :: k != key ==> LaneOf(k) == old(LaneOf(k));
      released := [payload] + following;
      if buffer[key] == map[] {
        oldest := oldest - {key};
      }
    }

    /** The draining loop: pops the expected sequence as long as it is buffered. */
    method ReleaseConsecutive(key: Entity) returns (released: seq<P>)
      requires key in buffer && key in nextSeq
      modifies this`buffer, this`nextSeq
      ensures key in buffer && key in nextSeq
      ensures Drained(released, Slots(key), nextSeq[key]) == Drain(old(Slots(key)), old(nextSeq[key]))
      ensures forall k :: k != key ==> LaneOf(k) == old(LaneOf(k))
    {
      released := [];
      ghost var target := Drain(buffer[key], nextSeq[key]);
      while nextSeq[key] in buffer[key]
        invariant key in buffer && key in nextSeq
        invariant forall k :: k != key ==> LaneOf(k) == old(LaneOf(k))
        invariant var d := Drain(buffer[key], nextSeq[key]);
          released + d.released == target.released && d.slots == target.slots && d.next == target.next
        decreases |buffer[key]|
      {
        var payload := PopExpected(key);
        released := released + [payload];
      }
    }

    method PopExpected(key: Entity) returns (payload: P)
      requires key in buffer && key in nextSeq && nextSeq[key] in buffer[key]
      modifies this`buffer, this`nextSeq
      ensures key in buffer && key in nextSeq
      ensures var n := old(nextSeq[key]);
        && nextSeq[key] == n + 1 && buffer[key] == old(buffer[key]) - {n} && |buffer[key]| < |old(buffer[key])|
        && payload == old(buffer[key])[n].payload
      ensures forall k :: k != key ==> LaneOf(k) == old(LaneOf(k))
    {
      var n := nextSeq[key];
      payload := buffer[key][n].payload;
      assert (buffer[key] - {n}).Keys == buffer[key].Keys - {n};
      buffer := buffer[key := buffer[key] - {n}];
      nextSeq := nextSeq[key := n + 1];
    }

    /** `_flush_buffer`. */
    method FlushBuffer(key: Entity) returns (result: seq<P>)
      modifies this
      ensures result == PayloadsAt(old(Slots(key)), SortedKeys(old(Slots(key)).Keys))
      ensures Slots(key) == map[]
      ensures LaneOf(key).oldest == if old(Slots(key)) == map[] then old(LaneOf(key).oldest) else None
      ensures forall k :: k != key ==> LaneOf(k) == old(LaneOf(k))
    {
      if key !in buffer || buffer[key] == map[] {
        return [];
      }
      var keys := SortedKeys(buffer[key].Keys);
      result := PayloadsAt(buffer[key], keys);
      if keys != [] {
        nextSeq := nextSeq[key := keys[|keys| - 1] + 1];
      }
      buffer := buffer[key := map[]];
      oldest := oldest - {key};
    }
  }

  function Fresh<P>(): Lane<P> { Lane(map[], 0, None) }
}
