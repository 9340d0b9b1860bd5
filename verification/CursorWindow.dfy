/** Incremental cycles bounded by `cursor_window`: the watermark arithmetic of `_do_sync` in
    engine/src/inandout/ingestion/engine.py. */
module CursorWindow {

  /** `min(watermark_float + window_secs, now_float)`. */
  function WindowEnd(watermark: real, window: real, now: real): real {
    if watermark + window < now then watermark + window else now
  }

  /** One cycle: when it started and whether some page of it had records. */
  datatype Cycle = Cycle(now: real, sawRecords: bool)

  /** Only a page with records writes the watermark, and then it writes the end of the window. */
  function Advance(watermark: real, window: real, c: Cycle): real {
    if c.sawRecords then WindowEnd(watermark, window, c.now) else watermark
  }

  class Poller {
    const window: real
    var watermark: real

    constructor (window: real, watermark: real)
      ensures this.window == window && this.watermark == watermark
    {
      this.window, this.watermark := window, watermark;
    }

    /** The page loop of one cycle, each page given by its number of records. */
    method Poll(now: real, pages: seq<nat>)
      modifies this
      ensures watermark == Advance(old(watermark), window, Cycle(now, exists i :: 0 <= i < |pages| && pages[i] > 0))
    {
      var windowEnd := if watermark + window < now then watermark + window else now;
      var i := 0;
      while i < |pages|
        invariant 0 <= i <= |pages|
        invariant watermark == if exists k :: 0 <= k < i && pages[k] > 0 then windowEnd else old(watermark)
      {
        if pages[i] > 0 { watermark := windowEnd; }
        i := i + 1;
      }
    }
  }

  /** The watermark after the first `k` cycles. */
  function After(watermark: real, window: real, cycles: seq<Cycle>, k: nat): real
    requires k <= |cycles|
  {
    if k == 0 then watermark else Advance(After(watermark, window, cycles, k - 1), window, cycles[k - 1])
  }

  ghost predicate MonotoneClock(cycles: seq<Cycle>) {
    forall i, j :: 0 <= i <= j < |cycles| ==> cycles[i].now <= cycles[j].now
  }

  /** A cycle moves the watermark back exactly when it stores a window although the watermark is ahead of the clock. */
  lemma {:induction false} BackwardsIff(watermark: real, window: real, c: Cycle)
    requires window > 0.0
    ensures Advance(watermark, window, c) < watermark <==> c.sawRecords && c.now < watermark
    ensures Advance(watermark, window, c) > watermark <==> c.sawRecords && c.now > watermark
    ensures Advance(watermark, window, c) <= watermark + window
  {
  }

  lemma {:induction false} NeverPastTheClock(watermark: real, window: real, cycles: seq<Cycle>, k: nat)
    requires window > 0.0 && MonotoneClock(cycles) && 0 < k <= |cycles| && watermark <= cycles[0].now
    ensures watermark <= After(watermark, window, cycles, k) <= cycles[k - 1].now
    ensures After(watermark, window, cycles, k - 1) <= After(watermark, window, cycles, k)
  {
    if k > 1 {
      NeverPastTheClock(watermark, window, cycles, k - 1);
      assert cycles[k - 2].now <= cycles[k - 1].now;
    }
  }

  /** Cycle `i` stored a window that contains the instant `t`. */
  ghost predicate Covers(watermark: real, window: real, cycles: seq<Cycle>, i: nat, t: real)
    requires i < |cycles|
  {
    && cycles[i].sawRecords
    && After(watermark, window, cycles, i) < t <= After(watermark, window, cycles, i + 1)
  }

  /** The stored windows tile the time between the first and the last watermark: every instant in between lies
      in one of them .. */
  lemma {:induction false} WindowsCover(watermark: real, window: real, cycles: seq<Cycle>, k: nat, t: real) returns (i: nat)
    requires window > 0.0 && MonotoneClock(cycles) && k <= |cycles|
    requires watermark < t <= After(watermark, window, cycles, k)
    ensures i < k && Covers(watermark, window, cycles, i, t)
  {
    if t <= After(watermark, window, cycles, k - 1) {
      i := WindowsCover(watermark, window, cycles, k - 1, t);
    } else {
      i := k - 1;
    }
  }

  /** .. and in no other. */
  lemma {:induction false} WindowsDisjoint(watermark: real, window: real, cycles: seq<Cycle>, i: nat, j: nat, t: real)
    requires window > 0.0 && MonotoneClock(cycles) && i < |cycles| && j < |cycles| && watermark <= cycles[0].now
    requires Covers(watermark, window, cycles, i, t) && Covers(watermark, window, cycles, j, t)
    ensures i == j
  {
    if i < j { Ordered(watermark, window, cycles, i + 1, j); }
    if j < i { Ordered(watermark, window, cycles, j + 1, i); }
  }

  lemma {:induction false} Ordered(watermark: real, window: real, cycles: seq<Cycle>, i: nat, j: nat)
    requires window > 0.0 && MonotoneClock(cycles) && i <= j <= |cycles| && (cycles != [] ==> watermark <= cycles[0].now)
    ensures After(watermark, window, cycles, i) <= After(watermark, window, cycles, j)
  {
    if i < j {
      Ordered(watermark, window, cycles, i, j - 1);
      NeverPastTheClock(watermark, window, cycles, j);
    }
  }

  /** How many of the first `k` cycles had records. */
  function Productive(cycles: seq<Cycle>, k: nat): nat
    requires k <= |cycles|
  {
    if k == 0 then 0 else Productive(cycles, k - 1) + if cycles[k - 1].sawRecords then 1 else 0
  }

  /** Only productive cycles count: after m of them the watermark has moved on by m windows or has reached the
      first clock reading; with none it has not moved at all. */
  lemma {:induction false} CatchUp(watermark: real, window: real, cycles: seq<Cycle>, k: nat)
    requires window > 0.0 && MonotoneClock(cycles) && 0 < k <= |cycles| && watermark <= cycles[0].now
    ensures var m, w := Productive(cycles, k), After(watermark, window, cycles, k);
      && (w >= watermark + m as real * window || w >= cycles[0].now)
      && (m == 0 ==> w == watermark)
      && (m > 0 && watermark < cycles[0].now ==> w > watermark)
  {
    NeverPastTheClock(watermark, window, cycles, k);
    var before := After(watermark, window, cycles, k - 1);
    var m := Productive(cycles, k - 1);
    if k > 1 {
      CatchUp(watermark, window, cycles, k - 1);
      NeverPastTheClock(watermark, window, cycles, k - 1);
    }
    assert (m + 1) as real * window == m as real * window + window;
    assert cycles[0].now <= cycles[k - 1].now;
  }
}
