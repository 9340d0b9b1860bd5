/** Which records a source polled in completed cycles with a cursor window ever reaches. */
module WindowCycles {
  import opened Wrappers
  import opened SyncEngine
  import opened SyncRuns
  import opened CrashResume
  import opened WindowLoss
  import CursorWindow

  /** Cursors that are compared as the numbers they stand for. */
  function ByNumber(num: string -> real): CursorOrder {
    (a: string, b: string) => num(a) <= num(b)
  }

  /** The attempt's window starts at the stored watermark and ends after `window` or at the clock. */
  ghost predicate Windowed(num: string -> real, window: real, now: real, db: Db, a: Attempt) {
    && db.watermark.Some? && db.interrupted == []
    && a.windowEnd.Some? && a.windowEnd.value != ""
    && num(a.windowEnd.value) == CursorWindow.WindowEnd(num(db.watermark.value), window, now)
  }

  /** One cycle after the other, each of which runs to its end. */
  ghost predicate Cycles(cfg: Config, num: string -> real, window: real, nows: seq<real>, source: seq<Item>, dbs: seq<Db>,
                         attempts: seq<Attempt>)
  {
    && SortedSource(cfg, ByNumber(num), source) && window > 0.0
    && |dbs| == |attempts| + 1 && |nows| == |attempts|
    && dbs[0].watermark.Some? && dbs[0].interrupted == []
    && forall k :: 0 <= k < |attempts| ==>
         && Windowed(num, window, nows[k], dbs[k], attempts[k]) && attempts[k].how.RanToEnd?
         && Faithful(cfg, ByNumber(num), source, dbs[k], attempts[k]) && dbs[k + 1] == AfterAttempt(cfg, dbs[k], attempts[k])
  }

  function Instant(cfg: Config, num: string -> real, x: Item): real
    requires CarriesCursor(cfg, x)
  {
    num(Cursor(cfg, x))
  }

  ghost predicate HasRecord(cfg: Config, num: string -> real, source: seq<Item>, low: real, high: real)
    requires forall i :: 0 <= i < |source| ==> CarriesCursor(cfg, source[i])
  {
    exists i :: 0 <= i < |source| && low <= Instant(cfg, num, source[i]) <= high
  }

  // ---------------------------------------------------------------- one cycle

  /** A completed cycle asks for the records between the watermark and the end of its window; without a parameter for
      the end, for all from the watermark on. */
  lemma {:induction false} CycleAsks(cfg: Config, num: string -> real, window: real, now: real, source: seq<Item>, db: Db,
                                     a: Attempt, i: nat)
    requires SortedSource(cfg, ByNumber(num), source) && Windowed(num, window, now, db, a) && i < |source|
    ensures source[i] in Asked(cfg, ByNumber(num), source, db, a) <==>
      && num(db.watermark.value) <= Instant(cfg, num, source[i])
      && (cfg.untilParam ==> Instant(cfg, num, source[i]) <= CursorWindow.WindowEnd(num(db.watermark.value), window, now))
  {
    AskedIff(cfg, ByNumber(num), source, db, a, i);
  }

  /** What a completed cycle does to the watermark is what the window arithmetic says. */
  lemma {:induction false} CycleAdvances(cfg: Config, num: string -> real, window: real, now: real, source: seq<Item>, db: Db,
                                         a: Attempt)
    requires SortedSource(cfg, ByNumber(num), source) && Windowed(num, window, now, db, a) && a.how.RanToEnd?
    requires Faithful(cfg, ByNumber(num), source, db, a)
    ensures var db', asked := AfterAttempt(cfg, db, a), Asked(cfg, ByNumber(num), source, db, a);
      && db'.interrupted == [] && db'.watermark.Some?
      && (asked == [] ==> db'.watermark == db.watermark)
      && num(db'.watermark.value) ==
         CursorWindow.Advance(num(db.watermark.value), window, CursorWindow.Cycle(now, asked != []))
  {
    AttemptWatermark(cfg, db, a);
    PagesInClosedForm(RunConfig(cfg, a), Begin(cfg, db).state.db, a.pages);
  }

  lemma {:induction false} AskedIsRecord(cfg: Config, num: string -> real, window: real, now: real, source: seq<Item>, db: Db,
                                         a: Attempt)
    requires SortedSource(cfg, ByNumber(num), source) && Windowed(num, window, now, db, a)
    requires cfg.untilParam && Asked(cfg, ByNumber(num), source, db, a) != []
    ensures HasRecord(cfg, num, source, num(db.watermark.value), num(db.watermark.value) + window)
  {
    var x := Asked(cfg, ByNumber(num), source, db, a)[0];
    ListingElements(RunConfig(cfg, a), ByNumber(num), source, ResumePoint(cfg, db));
    assert x in source;
    var i :| 0 <= i < |source| && source[i] == x;
    CycleAsks(cfg, num, window, now, source, db, a, i);
  }

  // ---------------------------------------------------------------- the watermark's steps

  /** Where the watermark stands after `k` productive cycles that the clock does not hold back. */
  function Edge(start: real, window: real, k: nat): real {
    if k == 0 then start else Edge(start, window, k - 1) + window
  }

  lemma {:induction false} EdgesAscend(start: real, window: real, j: nat, k: nat)
    requires window > 0.0 && j <= k
    ensures Edge(start, window, j) <= Edge(start, window, k)
  {
    if j < k { EdgesAscend(start, window, j, k - 1); }
  }

  function Start(num: string -> real, dbs: seq<Db>): real
    requires |dbs| > 0 && dbs[0].watermark.Some?
  {
    num(dbs[0].watermark.value)
  }

  /** There is a record in each of the first `j` windows. */
  ghost predicate NoEmptyWindow(cfg: Config, num: string -> real, window: real, source: seq<Item>, start: real, j: nat)
    requires forall i :: 0 <= i < |source| ==> CarriesCursor(cfg, source[i])
  {
    forall m: nat :: m < j ==> HasRecord(cfg, num, source, Edge(start, window, m), Edge(start, window, m + 1))
  }

  ghost predicate At(num: string -> real, db: Db, t: real) {
    db.watermark.Some? && num(db.watermark.value) == t
  }

  lemma {:induction false} Advances(cfg: Config, num: string -> real, window: real, nows: seq<real>, source: seq<Item>,
                                    dbs: seq<Db>, attempts: seq<Attempt>, k: nat)
    requires Cycles(cfg, num, window, nows, source, dbs, attempts) && k <= |attempts|
    requires NoEmptyWindow(cfg, num, window, source, Start(num, dbs), k)
    requires forall m :: 0 <= m < k ==> Edge(Start(num, dbs), window, k) <= nows[m]
    ensures At(num, dbs[k], Edge(Start(num, dbs), window, k))
  {
    if k > 0 {
      var m, start := k - 1, Start(num, dbs);
      EdgesAscend(start, window, m, k);
      Advances(cfg, num, window, nows, source, dbs, attempts, m);
      assert HasRecord(cfg, num, source, Edge(start, window, m), Edge(start, window, m + 1));
      var i :| 0 <= i < |source| && Edge(start, window, m) <= Instant(cfg, num, source[i]) <= Edge(start, window, m + 1);
      CycleAsks(cfg, num, window, nows[m], source, dbs[m], attempts[m], i);
      CycleAdvances(cfg, num, window, nows[m], source, dbs[m], attempts[m]);
    }
  }

  lemma {:induction false} NoRecordsNoChange(cfg: Config, db: Db, pages: seq<seq<Item>>)
    requires Flatten(pages) == []
    ensures Pages(cfg, State(db, NO_PROGRESS), pages).db == db && Pages(cfg, State(db, NO_PROGRESS), pages).run.checkpoint.None?
  {
    if pages != [] {
      var n := |pages| - 1;
      assert Flatten(pages) == Flatten(pages[..n]) + pages[n];
      NoRecordsNoChange(cfg, db, pages[..n]);
    }
  }

  /** A completed cycle whose window is empty leaves everything as it was. */
  lemma {:induction false} EmptyCycle(cfg: Config, num: string -> real, window: real, now: real, source: seq<Item>, db: Db,
                                      a: Attempt)
    requires SortedSource(cfg, ByNumber(num), source) && Windowed(num, window, now, db, a) && a.how.RanToEnd?
    requires Faithful(cfg, ByNumber(num), source, db, a) && cfg.untilParam
    requires !HasRecord(cfg, num, source, num(db.watermark.value), num(db.watermark.value) + window)
    ensures Asked(cfg, ByNumber(num), source, db, a) == [] && AfterAttempt(cfg, db, a) == db
  {
    if Asked(cfg, ByNumber(num), source, db, a) != [] { AskedIsRecord(cfg, num, window, now, source, db, a); }
    NoRecordsNoChange(RunConfig(cfg, a), Begin(cfg, db).state.db, a.pages);
  }

  /** And so does every one after it. */
  lemma {:induction false} StuckForGood(cfg: Config, num: string -> real, window: real, nows: seq<real>, source: seq<Item>,
                                        dbs: seq<Db>, attempts: seq<Attempt>, m: nat, k: nat)
    requires Cycles(cfg, num, window, nows, source, dbs, attempts) && m <= k <= |attempts| && cfg.untilParam
    requires dbs[m].watermark.Some?
    requires var t := num(dbs[m].watermark.value); !HasRecord(cfg, num, source, t, t + window)
    ensures dbs[k] == dbs[m]
    ensures k < |attempts| ==> Asked(cfg, ByNumber(num), source, dbs[k], attempts[k]) == []
    decreases k
  {
    if m < k { StuckForGood(cfg, num, window, nows, source, dbs, attempts, m, k - 1); }
    if m < k { EmptyCycle(cfg, num, window, nows[k - 1], source, dbs[k - 1], attempts[k - 1]); }
    if k < |attempts| { EmptyCycle(cfg, num, window, nows[k], source, dbs[k], attempts[k]); }
  }

  // ---------------------------------------------------------------- which records are reached

  /** The record lies in window `j`, counted from the start, and the clock is past it. */
  ghost predicate InWindowNumber(cfg: Config, num: string -> real, window: real, nows: seq<real>, start: real, x: Item, j: nat) {
    && CarriesCursor(cfg, x) && start <= Instant(cfg, num, x) <= Edge(start, window, j + 1)
    && (j > 0 ==> Edge(start, window, j) < Instant(cfg, num, x))
    && forall k :: 0 <= k < |nows| ==> Instant(cfg, num, x) <= nows[k]
  }

  ghost predicate AskedFor(cfg: Config, num: string -> real, source: seq<Item>, dbs: seq<Db>, attempts: seq<Attempt>, i: nat, k: nat)
    requires SortedSource(cfg, ByNumber(num), source) && i < |source| && k < |attempts| && k < |dbs|
  {
    source[i] in Asked(cfg, ByNumber(num), source, dbs[k], attempts[k])
  }

  lemma {:induction false} ReachedInTime(cfg: Config, num: string -> real, window: real, nows: seq<real>, source: seq<Item>,
                                         dbs: seq<Db>, attempts: seq<Attempt>, i: nat, j: nat)
    requires Cycles(cfg, num, window, nows, source, dbs, attempts) && i < |source| && j < |attempts|
    requires InWindowNumber(cfg, num, window, nows, Start(num, dbs), source[i], j)
    requires NoEmptyWindow(cfg, num, window, source, Start(num, dbs), j)
    ensures AskedFor(cfg, num, source, dbs, attempts, i, j)
  {
    Advances(cfg, num, window, nows, source, dbs, attempts, j);
    CycleAsks(cfg, num, window, nows[j], source, dbs[j], attempts[j], i);
  }

  /** A cycle that starts at edge `k` gets no further than the next edge. */
  lemma {:induction false} NotYetAsked(cfg: Config, num: string -> real, window: real, nows: seq<real>, source: seq<Item>,
                                       dbs: seq<Db>, attempts: seq<Attempt>, i: nat, k: nat)
    requires Cycles(cfg, num, window, nows, source, dbs, attempts) && i < |source| && k < |attempts| && cfg.untilParam
    requires At(num, dbs[k], Edge(Start(num, dbs), window, k))
    requires Edge(Start(num, dbs), window, k + 1) < Instant(cfg, num, source[i])
    ensures !AskedFor(cfg, num, source, dbs, attempts, i, k)
  {
    CycleAsks(cfg, num, window, nows[k], source, dbs[k], attempts[k], i);
  }

  /** If window `m` is the first empty one, no cycle gets beyond its end. */
  lemma {:induction false} NeverReached(cfg: Config, num: string -> real, window: real, nows: seq<real>, source: seq<Item>,
                                        dbs: seq<Db>, attempts: seq<Attempt>, i: nat, j: nat, m: nat, k: nat)
    requires Cycles(cfg, num, window, nows, source, dbs, attempts) && i < |source| && k < |attempts| && cfg.untilParam
    requires InWindowNumber(cfg, num, window, nows, Start(num, dbs), source[i], j)
    requires m < j < |attempts| && NoEmptyWindow(cfg, num, window, source, Start(num, dbs), m)
    requires !HasRecord(cfg, num, source, Edge(Start(num, dbs), window, m), Edge(Start(num, dbs), window, m + 1))
    ensures !AskedFor(cfg, num, source, dbs, attempts, i, k)
  {
    var start, e := Start(num, dbs), if k < m then k else m;
    EdgesAscend(start, window, e + 1, j);
    EdgesAscend(start, window, e, j);
    Advances(cfg, num, window, nows, source, dbs, attempts, e);
    if k < m {
      NotYetAsked(cfg, num, window, nows, source, dbs, attempts, i, k);
    } else {
      StuckForGood(cfg, num, window, nows, source, dbs, attempts, m, k);
    }
  }

  lemma {:induction false} FirstEmptyWindow(cfg: Config, num: string -> real, window: real, source: seq<Item>, start: real, j: nat)
    returns (m: nat)
    requires forall i :: 0 <= i < |source| ==> CarriesCursor(cfg, source[i])
    requires !NoEmptyWindow(cfg, num, window, source, start, j)
    ensures m < j && NoEmptyWindow(cfg, num, window, source, start, m)
    ensures !HasRecord(cfg, num, source, Edge(start, window, m), Edge(start, window, m + 1))
  {
    m := j - 1;
    if !NoEmptyWindow(cfg, num, window, source, start, m) { m := FirstEmptyWindow(cfg, num, window, source, start, m); }
  }

  /** However many cycles run to their end, more than `j` of them: a record in window `j` is ever asked for if and only
      if none of the windows before it is empty, or the source is not told where the window ends. */
  lemma {:induction false} EverAskedIff(cfg: Config, num: string -> real, window: real, nows: seq<real>, source: seq<Item>,
                                        dbs: seq<Db>, attempts: seq<Attempt>, i: nat, j: nat)
    requires Cycles(cfg, num, window, nows, source, dbs, attempts) && i < |source| && j < |attempts|
    requires InWindowNumber(cfg, num, window, nows, Start(num, dbs), source[i], j)
    ensures (exists k :: 0 <= k < |attempts| && AskedFor(cfg, num, source, dbs, attempts, i, k))
      <==> !cfg.untilParam || NoEmptyWindow(cfg, num, window, source, Start(num, dbs), j)
  {
    if !cfg.untilParam {
      CycleAsks(cfg, num, window, nows[0], source, dbs[0], attempts[0], i);
      assert AskedFor(cfg, num, source, dbs, attempts, i, 0);
    } else if NoEmptyWindow(cfg, num, window, source, Start(num, dbs), j) {
      ReachedInTime(cfg, num, window, nows, source, dbs, attempts, i, j);
    } else {
      var m := FirstEmptyWindow(cfg, num, window, source, Start(num, dbs), j);
      forall k | 0 <= k < |attempts| ensures !AskedFor(cfg, num, source, dbs, attempts, i, k) {
        NeverReached(cfg, num, window, nows, source, dbs, attempts, i, j, m, k);
      }
    }
  }

  /** After `n` cycles the record is settled exactly if it was before or one of them asked for it. */
  lemma {:induction false} SettledIffAsked(cfg: Config, num: string -> real, window: real, nows: seq<real>, source: seq<Item>,
                                           dbs: seq<Db>, attempts: seq<Attempt>, i: nat, n: nat)
    requires Cycles(cfg, num, window, nows, source, dbs, attempts) && i < |source| && n <= |attempts|
    requires OwnIdentity(cfg, source)
    ensures Settled(cfg, dbs[n], source[i], false) <==>
      Settled(cfg, dbs[0], source[i], false) || exists k :: 0 <= k < n && AskedFor(cfg, num, source, dbs, attempts, i, k)
    decreases n
  {
    if n > 0 {
      SettledIffAsked(cfg, num, window, nows, source, dbs, attempts, i, n - 1);
      AttemptSettlesOwn(cfg, ByNumber(num), source, dbs[n - 1], attempts[n - 1], i);
      assert AskedFor(cfg, num, source, dbs, attempts, i, n - 1) <==> source[i] in Flatten(attempts[n - 1].pages);
    }
  }

  /** So an unsettled record is settled by the cycles, sooner or later, if and only if no window before it is empty. */
  lemma {:induction false} EverSettledIff(cfg: Config, num: string -> real, window: real, nows: seq<real>, source: seq<Item>,
                                          dbs: seq<Db>, attempts: seq<Attempt>, i: nat, j: nat)
    requires Cycles(cfg, num, window, nows, source, dbs, attempts) && i < |source| && j < |attempts|
    requires InWindowNumber(cfg, num, window, nows, Start(num, dbs), source[i], j)
    requires OwnIdentity(cfg, source) && !Settled(cfg, dbs[0], source[i], false)
    ensures Settled(cfg, dbs[|attempts|], source[i], false)
      <==> !cfg.untilParam || NoEmptyWindow(cfg, num, window, source, Start(num, dbs), j)
  {
    EverAskedIff(cfg, num, window, nows, source, dbs, attempts, i, j);
    SettledIffAsked(cfg, num, window, nows, source, dbs, attempts, i, |attempts|);
  }

  // ---------------------------------------------------------------- gaps

  /** The first record comes within a window of the start, and no two neighbours are further apart than a window. */
  ghost predicate NoWideGap(cfg: Config, num: string -> real, window: real, source: seq<Item>, start: real)
    requires forall i :: 0 <= i < |source| ==> CarriesCursor(cfg, source[i])
  {
    forall i {:trigger Neighbour(cfg, num, source, start, i)} :: 0 <= i < |source| ==>
      Instant(cfg, num, source[i]) <= Neighbour(cfg, num, source, start, i) + window
  }

  function Neighbour(cfg: Config, num: string -> real, source: seq<Item>, start: real, i: nat): real
    requires i < |source| && forall k :: 0 <= k < |source| ==> CarriesCursor(cfg, source[k])
  {
    if i == 0 then start else Instant(cfg, num, source[i - 1])
  }

  /** Then no window before the last record is empty, wherever the windows begin. */
  lemma {:induction false} NoGapNoEmptyWindow(cfg: Config, num: string -> real, window: real, source: seq<Item>, start: real,
                                              t: real, i: nat)
    requires (forall k :: 0 <= k < |source| ==> CarriesCursor(cfg, source[k])) && NoWideGap(cfg, num, window, source, start)
    requires i < |source| && start <= t <= Instant(cfg, num, source[i])
    ensures HasRecord(cfg, num, source, t, t + window)
    decreases i
  {
    if i > 0 && t <= Instant(cfg, num, source[i - 1]) {
      NoGapNoEmptyWindow(cfg, num, window, source, start, t, i - 1);
    } else {
      assert Instant(cfg, num, source[i]) <= Neighbour(cfg, num, source, start, i) + window;
      assert t <= Instant(cfg, num, source[i]) <= t + window;
    }
  }

  lemma {:induction false} NoGapAllReached(cfg: Config, num: string -> real, window: real, nows: seq<real>, source: seq<Item>,
                                           dbs: seq<Db>, attempts: seq<Attempt>, i: nat, j: nat)
    requires Cycles(cfg, num, window, nows, source, dbs, attempts) && i < |source| && j < |attempts|
    requires InWindowNumber(cfg, num, window, nows, Start(num, dbs), source[i], j)
    requires NoWideGap(cfg, num, window, source, Start(num, dbs))
    ensures AskedFor(cfg, num, source, dbs, attempts, i, j)
  {
    var start := Start(num, dbs);
    forall m: nat | m < j ensures HasRecord(cfg, num, source, Edge(start, window, m), Edge(start, window, m + 1)) {
      EdgesAscend(start, window, 0, m);
      EdgesAscend(start, window, m, j);
      NoGapNoEmptyWindow(cfg, num, window, source, start, Edge(start, window, m), i);
    }
    ReachedInTime(cfg, num, window, nows, source, dbs, attempts, i, j);
  }
}
