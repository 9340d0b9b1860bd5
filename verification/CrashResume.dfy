/** Crashes between commits and resuming: no record of the source is lost. */
module CrashResume {
  import opened Wrappers
  import opened SourceTable
  import opened BatchRows
  import opened SyncEngine
  import opened SyncRuns

  /** The source's own order of cursor values; the engine's string comparison plays no part in it. */
  type CursorOrder = (string, string) -> bool

  predicate CarriesCursor(cfg: Config, item: Item) {
    cfg.cursorField.Some? && HasField(item.record, cfg.cursorField.value)
  }

  function Cursor(cfg: Config, item: Item): string
    requires CarriesCursor(cfg, item)
  {
    Text(item.record, cfg.cursorField.value)
  }

  /** The source lists its records in non-decreasing cursor order, and each carries the cursor. */
  ghost predicate SortedSource(cfg: Config, leq: CursorOrder, source: seq<Item>) {
    && (forall i :: 0 <= i < |source| ==> CarriesCursor(cfg, source[i]))
    && forall i, j :: 0 <= i < j < |source| ==> leq(Cursor(cfg, source[i]), Cursor(cfg, source[j]))
  }

  /** Any two cursors can be compared. Needed only where a window comes in. */
  ghost predicate TotalOrder(leq: CursorOrder) {
    && (forall a, b :: leq(a, b) || leq(b, a))
    && forall a, b, c :: leq(a, b) && leq(b, c) ==> leq(a, c)
  }

  predicate Listed(cfg: Config, leq: CursorOrder, from: Option<string>, item: Item)
    requires CarriesCursor(cfg, item)
  {
    from.None? || leq(from.value, Cursor(cfg, item))
  }

  /** The end of the run's window reaches the source only if there is a parameter for it. */
  predicate InWindow(cfg: Config, leq: CursorOrder, item: Item)
    requires CarriesCursor(cfg, item)
  {
    !cfg.untilParam || cfg.windowEnd.None? || leq(Cursor(cfg, item), cfg.windowEnd.value)
  }

  /** A listing returns every record at or above the watermark and in the window, in order. */
  function Listing(cfg: Config, leq: CursorOrder, source: seq<Item>, from: Option<string>): seq<Item>
    requires forall i :: 0 <= i < |source| ==> CarriesCursor(cfg, source[i])
  {
    if source == [] then []
    else
      (if Listed(cfg, leq, from, source[0]) && InWindow(cfg, leq, source[0]) then [source[0]] else []) + Listing(cfg, leq, source[1..], from)
  }

  // ---------------------------------------------------------------- attempts

  /** How an attempt ends after its last committed page: killed before or after that page's checkpoint was
      saved, stopped by an exception, or run to completion. */
  datatype How = CrashedBeforeCheckpoint | CrashedAfterCheckpoint | Failed | RanToEnd(ending: Ending)

  /** `windowEnd` is what the arithmetic on stored watermark and clock has come to, if there is a window. */
  datatype Attempt = Attempt(pages: seq<seq<Item>>, how: How, windowEnd: Option<string>)

  function RunConfig(cfg: Config, a: Attempt): Config {
    cfg.(windowEnd := a.windowEnd)
  }

  function KeptCheckpoint(run: Progress): seq<Option<string>> {
    if run.checkpoint.Some? then [run.checkpoint.value] else []
  }

  /** The checkpoint of an attempt that a later run can pick up: only a killed run leaves its row 'running'. */
  function LeftBehind(cfg: Config, db: Db, a: Attempt): seq<Option<string>> {
    match a.how
    case CrashedAfterCheckpoint => KeptCheckpoint(AfterPages(RunConfig(cfg, a), db, a.pages).run)
    case CrashedBeforeCheckpoint =>
      if a.pages == [] then [] else KeptCheckpoint(AfterPages(RunConfig(cfg, a), db, a.pages[..|a.pages| - 1]).run)
    case _ => []
  }

  /** The database after an attempt. */
  function AfterAttempt(cfg: Config, db: Db, a: Attempt): Db {
    var after := AfterPages(RunConfig(cfg, a), db, a.pages).db;
    after.(interrupted := after.interrupted + LeftBehind(cfg, db, a),
           table := if a.how.RanToEnd? then AfterRun(RunConfig(cfg, a), db, a.pages, a.how.ending).table else after.table)
  }

  /** What the attempt asks the source for. */
  function Asked(cfg: Config, leq: CursorOrder, source: seq<Item>, db: Db, a: Attempt): seq<Item>
    requires forall i :: 0 <= i < |source| ==> CarriesCursor(cfg, source[i])
  {
    assert forall i :: 0 <= i < |source| ==> (CarriesCursor(cfg, source[i]) ==> CarriesCursor(RunConfig(cfg, a), source[i]));
    Listing(RunConfig(cfg, a), leq, source, Begin(cfg, db).watermark)
  }

  /** The attempt worked through a beginning of the listing it asked for; all of it when it ran to the end.
      A window needs a stored watermark and comparable cursors. */
  ghost predicate Faithful(cfg: Config, leq: CursorOrder, source: seq<Item>, db: Db, a: Attempt)
    requires forall i :: 0 <= i < |source| ==> CarriesCursor(cfg, source[i])
  {
    var listing := Asked(cfg, leq, source, db, a);
    && Flatten(a.pages) <= listing && (a.how.RanToEnd? ==> Flatten(a.pages) == listing)
    && (a.windowEnd.Some? ==> db.watermark.Some? && TotalOrder(leq))
  }

  ghost predicate History(cfg: Config, leq: CursorOrder, source: seq<Item>, dbs: seq<Db>, attempts: seq<Attempt>) {
    && SortedSource(cfg, leq, source)
    && |dbs| == |attempts| + 1
    && dbs[0].watermark.None? && dbs[0].interrupted == []
    && forall i :: 0 <= i < |attempts| ==>
         Faithful(cfg, leq, source, dbs[i], attempts[i]) && dbs[i + 1] == AfterAttempt(cfg, dbs[i], attempts[i])
  }

  // ---------------------------------------------------------------- what must not be lost

  /** The record has a row or a dead letter. With `exact`, its row is live and carries its hash. */
  ghost predicate Settled(cfg: Config, db: Db, item: Item, exact: bool) {
    if Rejected(cfg, item) then Letter(cfg, item) in db.dead
    else
      var id := ExtractId(item.record, cfg.key).value;
      id in db.table && (exact ==> !db.table[id].deleted && db.table[id].hash == RawHash(item.record))
  }

  /** Every record that is not settled yet lies at or beyond `w`. */
  ghost predicate Behind(cfg: Config, leq: CursorOrder, source: seq<Item>, db: Db, w: Option<string>, exact: bool)
    requires forall i :: 0 <= i < |source| ==> CarriesCursor(cfg, source[i])
  {
    forall i :: 0 <= i < |source| ==> Settled(cfg, db, source[i], exact) || Listed(cfg, leq, w, source[i])
  }

  /** The point from which the next attempt will start: the checkpoint left behind, if it has a cursor, else the
      stored watermark. */
  function ResumePoint(cfg: Config, db: Db): Option<string> {
    Begin(cfg, db).watermark
  }

  ghost predicate Resumable(cfg: Config, leq: CursorOrder, source: seq<Item>, db: Db, exact: bool)
    requires forall i :: 0 <= i < |source| ==> CarriesCursor(cfg, source[i])
  {
    Behind(cfg, leq, source, db, ResumePoint(cfg, db), exact)
  }

  /** One checkpoint at most waits to be picked up, and none when checkpoints are switched off. */
  predicate OneMark(cfg: Config, db: Db) {
    |db.interrupted| <= 1 && (cfg.checkpointEvery == 0 ==> db.interrupted == [])
  }

  /** The source shows one version of each id. Needed only for `exact`. */
  ghost predicate OneVersion(cfg: Config, source: seq<Item>) {
    forall i, j :: 0 <= i < |source| && 0 <= j < |source| && SameId(cfg, source[i], source[j]) ==>
      source[i].record == source[j].record
  }

  predicate SameId(cfg: Config, x: Item, y: Item) {
    !Rejected(cfg, x) && !Rejected(cfg, y) && ExtractId(x.record, cfg.key) == ExtractId(y.record, cfg.key)
  }

  // ---------------------------------------------------------------- listings

  lemma {:induction false} ListingElements(cfg: Config, leq: CursorOrder, source: seq<Item>, from: Option<string>)
    requires forall i :: 0 <= i < |source| ==> CarriesCursor(cfg, source[i])
    ensures var l := Listing(cfg, leq, source, from);
      && (forall x :: x in l ==> x in source && CarriesCursor(cfg, x) && Listed(cfg, leq, from, x) && InWindow(cfg, leq, x))
      && (forall i :: 0 <= i < |source| && Listed(cfg, leq, from, source[i]) && InWindow(cfg, leq, source[i]) ==>
            source[i] in l)
  {
    if source != [] {
      var rest := source[1..];
      ListingElements(cfg, leq, rest, from);
      forall x | x in Listing(cfg, leq, source, from)
        ensures x in source && CarriesCursor(cfg, x) && Listed(cfg, leq, from, x) && InWindow(cfg, leq, x)
      {
        if x in rest {
          var k :| 0 <= k < |rest| && rest[k] == x;
          assert source[k + 1] == x;
        }
      }
      forall i | 0 <= i < |source| && Listed(cfg, leq, from, source[i]) && InWindow(cfg, leq, source[i])
        ensures source[i] in Listing(cfg, leq, source, from)
      {
        if i > 0 { assert source[i] == rest[i - 1]; }
      }
    }
  }

  lemma {:induction false} ListingSorted(cfg: Config, leq: CursorOrder, source: seq<Item>, from: Option<string>)
    requires SortedSource(cfg, leq, source)
    ensures SortedSource(cfg, leq, Listing(cfg, leq, source, from))
  {
    if source != [] {
      var rest := source[1..];
      var l := Listing(cfg, leq, rest, from);
      ListingSorted(cfg, leq, rest, from);
      ListingElements(cfg, leq, rest, from);
      forall j | 0 <= j < |l| ensures leq(Cursor(cfg, source[0]), Cursor(cfg, l[j])) {
        assert l[j] in rest;
        var k :| 0 <= k < |rest| && rest[k] == l[j];
        assert source[k + 1] == l[j];
      }
      PrependSorted(cfg, leq, source[0], l);
    }
  }

  lemma {:induction false} PrependSorted(cfg: Config, leq: CursorOrder, x: Item, l: seq<Item>)
    requires SortedSource(cfg, leq, l) && CarriesCursor(cfg, x)
    requires forall j :: 0 <= j < |l| ==> leq(Cursor(cfg, x), Cursor(cfg, l[j]))
    ensures SortedSource(cfg, leq, [x] + l)
  {
  }

  // ---------------------------------------------------------------- what a run settles

  /** A run's cursor is that of some record it has worked through. */
  lemma {:induction false} WatermarkIsACursor(cfg: Config, items: seq<Item>)
    ensures var w := ScanItems(cfg, NOTHING, items).watermark;
      w.Some? ==> exists k :: 0 <= k < |items| && CarriesCursor(cfg, items[k]) && w.value == Cursor(cfg, items[k])
  {
    if items != [] {
      var n := |items| - 1;
      WatermarkIsACursor(cfg, items[..n]);
      var w, w' := ScanItems(cfg, NOTHING, items[..n]).watermark, ScanItems(cfg, NOTHING, items).watermark;
      if w'.Some? {
        if w' == w {
          var k :| 0 <= k < n && CarriesCursor(cfg, items[..n][k]) && w.value == Cursor(cfg, items[..n][k]);
          assert w'.value == Cursor(cfg, items[k]);
        } else {
          assert w'.value == Cursor(cfg, items[n]);
        }
      }
    }
  }

  /** Every record scanned is dead-lettered, or its id is among the accepted ones. */
  lemma {:induction false} ScanSettles(cfg: Config, items: seq<Item>, k: nat)
    requires k < |items|
    ensures SettledBy(cfg, ScanItems(cfg, NOTHING, items), items[k])
  {
    var n := |items| - 1;
    ScanCounts(cfg, items[..n]);
    if k < n { ScanSettles(cfg, items[..n], k); }
    OneItemSettles(cfg, ScanItems(cfg, NOTHING, items[..n]), items[n], items[k]);
  }

  ghost predicate SettledBy(cfg: Config, s: Scan, x: Item) {
    if Rejected(cfg, x) then Letter(cfg, x) in s.dead
    else Mentions(s.accepted, ExtractId(x.record, cfg.key).value)
  }

  lemma {:induction false} OneItemSettles(cfg: Config, s: Scan, item: Item, x: Item)
    requires forall id :: id in s.seen <==> Mentions(s.accepted, id)
    requires x == item || SettledBy(cfg, s, x)
    ensures SettledBy(cfg, ScanItem(cfg, s, item), x)
  {
    var s' := ScanItem(cfg, s, item);
    if s'.accepted != s.accepted {
      assert s'.accepted[..|s.accepted|] == s.accepted;
      MentionsPrefix(s'.accepted);
    }
  }

  /** Accepted records come from the items scanned. */
  lemma {:induction false} AcceptedComesFrom(cfg: Config, items: seq<Item>, i: nat)
    requires i < |ScanItems(cfg, NOTHING, items).accepted|
    ensures var a := ScanItems(cfg, NOTHING, items).accepted[i];
      exists k :: 0 <= k < |items| && !Rejected(cfg, items[k]) &&
        a == Accepted(ExtractId(items[k].record, cfg.key).value, items[k].record)
  {
    if items != [] {
      var n := |items| - 1;
      var s := ScanItems(cfg, NOTHING, items[..n]);
      if i < |s.accepted| {
        AcceptedComesFrom(cfg, items[..n], i);
        var k :| 0 <= k < n && !Rejected(cfg, items[..n][k]) &&
          s.accepted[i] == Accepted(ExtractId(items[..n][k].record, cfg.key).value, items[..n][k].record);
        assert items[k] == items[..n][k];
      } else {
        assert !Rejected(cfg, items[n]);
      }
    }
  }

  // ---------------------------------------------------------------- rows on either write path

  lemma {:induction false} WriteAllKeys(cfg: Config, t: Table, recs: seq<Accepted>)
    ensures forall id :: id in WriteAll(cfg, t, recs).table <==> id in t || Mentions(recs, id)
  {
    IdsAreMentions(recs);
    if UsesBatches(cfg) {
      BulkAllGrows(t, recs, cfg.batchSize);
    } else {
      UpsertAllKeys(t, recs);
    }
  }

  lemma {:induction false} MentionsConcat(a: seq<Accepted>, b: seq<Accepted>, id: string)
    ensures Mentions(a + b, id) <==> Mentions(a, id) || Mentions(b, id)
  {
    if i :| 0 <= i < |a| && a[i].id == id { assert (a + b)[i].id == id; }
    if i :| 0 <= i < |b| && b[i].id == id { assert (a + b)[|a| + i].id == id; }
    if i :| 0 <= i < |a + b| && (a + b)[i].id == id {
      assert if i < |a| then a[i].id == id else b[i - |a|].id == id;
    }
  }

  /** The ids with a row are those that had one and those accepted. */
  lemma {:induction false} PagesKeys(cfg: Config, db: Db, pages: seq<seq<Item>>)
    ensures var t, recs := Pages(cfg, State(db, NO_PROGRESS), pages).db.table, RunScan(cfg, pages).accepted;
      forall id :: id in t <==> id in db.table || Mentions(recs, id)
  {
    if pages != [] {
      var n := |pages| - 1;
      PagesKeys(cfg, db, pages[..n]);
      PagesInClosedForm(cfg, db, pages[..n]);
      var st := Pages(cfg, State(db, NO_PROGRESS), pages[..n]);
      var run := st.run.(page := st.run.page + 1, fetched := st.run.fetched + |pages[n]|);
      PageScanContinues(cfg, run, Flatten(pages[..n]), pages[n]);
      var d := PageScan(cfg, run, pages[n]);
      WriteAllKeys(cfg, st.db.table, d.accepted);
      forall id ensures Mentions(RunScan(cfg, pages).accepted, id) <==>
        Mentions(RunScan(cfg, pages[..n]).accepted, id) || Mentions(d.accepted, id)
      {
        MentionsConcat(RunScan(cfg, pages[..n]).accepted, d.accepted, id);
      }
    }
  }

  // ---------------------------------------------------------------- resume points

  /** `w` is nothing, or the cursor of one of the items. */
  ghost predicate CursorOf(cfg: Config, items: seq<Item>, w: Option<string>) {
    w.Some? ==> exists k :: 0 <= k < |items| && CarriesCursor(cfg, items[k]) && w.value == Cursor(cfg, items[k])
  }

  lemma {:induction false} CursorOfLonger(cfg: Config, a: seq<Item>, b: seq<Item>, w: Option<string>)
    requires CursorOf(cfg, a, w)
    ensures CursorOf(cfg, a + b, w)
  {
    if w.Some? {
      var k :| 0 <= k < |a| && CarriesCursor(cfg, a[k]) && w.value == Cursor(cfg, a[k]);
      assert (a + b)[k] == a[k];
    }
  }

  /** Watermark and checkpoint are cursors of records whose pages have been committed. */
  lemma {:induction false} RunCursors(cfg: Config, db: Db, pages: seq<seq<Item>>)
    ensures var run := Pages(cfg, State(db, NO_PROGRESS), pages).run;
      && CursorOf(cfg, Flatten(pages), run.watermark)
      && (run.checkpoint.Some? ==> CursorOf(cfg, Flatten(pages), run.checkpoint.value))
  {
    PagesInClosedForm(cfg, db, pages);
    WatermarkIsACursor(cfg, Flatten(pages));
    if pages != [] {
      var n := |pages| - 1;
      RunCursors(cfg, db, pages[..n]);
      var before := Pages(cfg, State(db, NO_PROGRESS), pages[..n]).run;
      if before.checkpoint.Some? {
        CursorOfLonger(cfg, Flatten(pages[..n]), pages[n], before.checkpoint.value);
      }
    }
  }

  lemma {:induction false} LeftBehindCursors(cfg: Config, db: Db, a: Attempt)
    ensures forall k :: 0 <= k < |LeftBehind(cfg, db, a)| ==> CursorOf(cfg, Flatten(a.pages), LeftBehind(cfg, db, a)[k])
  {
    var begun := Begin(cfg, db).state.db;
    if a.how == CrashedAfterCheckpoint {
      RunCursors(RunConfig(cfg, a), begun, a.pages);
      SameCursors(cfg, a);
    }
    if a.how == CrashedBeforeCheckpoint && a.pages != [] {
      var n := |a.pages| - 1;
      RunCursors(RunConfig(cfg, a), begun, a.pages[..n]);
      EarlierCursor(RunConfig(cfg, a), begun, a.pages);
      SameCursors(cfg, a);
    }
  }

  /** The window has nothing to do with which cursors records carry. */
  lemma {:induction false} SameCursor(cfg: Config, a: Attempt, w: Option<string>)
    ensures CursorOf(RunConfig(cfg, a), Flatten(a.pages), w) <==> CursorOf(cfg, Flatten(a.pages), w)
  {
    var run, items := RunConfig(cfg, a), Flatten(a.pages);
    if w.Some? {
      if k :| 0 <= k < |items| && CarriesCursor(run, items[k]) && w.value == Cursor(run, items[k]) {
        assert CarriesCursor(cfg, items[k]) && w.value == Cursor(cfg, items[k]);
      }
      if k :| 0 <= k < |items| && CarriesCursor(cfg, items[k]) && w.value == Cursor(cfg, items[k]) {
        assert CarriesCursor(run, items[k]) && w.value == Cursor(run, items[k]);
      }
    }
  }

  lemma {:induction false} SameCursors(cfg: Config, a: Attempt)
    ensures forall w {:trigger CursorOf(cfg, Flatten(a.pages), w)} ::
      CursorOf(RunConfig(cfg, a), Flatten(a.pages), w) ==> CursorOf(cfg, Flatten(a.pages), w)
  {
    forall w | CursorOf(RunConfig(cfg, a), Flatten(a.pages), w) ensures CursorOf(cfg, Flatten(a.pages), w) {
      SameCursor(cfg, a, w);
    }
  }

  lemma {:induction false} EarlierCursor(cfg: Config, begun: Db, pages: seq<seq<Item>>)
    requires pages != []
    ensures var run := Pages(cfg, State(begun, NO_PROGRESS), pages[..|pages| - 1]).run;
      run.checkpoint.Some? ==> CursorOf(cfg, Flatten(pages), run.checkpoint.value)
  {
    var n := |pages| - 1;
    RunCursors(cfg, begun, pages[..n]);
    var run := Pages(cfg, State(begun, NO_PROGRESS), pages[..n]).run;
    if run.checkpoint.Some? { CursorOfLonger(cfg, Flatten(pages[..n]), pages[n], run.checkpoint.value); }
  }

  /** Some page of the attempt had records, and so the end of its window was stored. */
  predicate StoresWindow(a: Attempt) {
    a.windowEnd.Some? && a.windowEnd.value != "" && Flatten(a.pages) != []
  }

  /** The attempt has no window, and some record it accepted has a cursor that is not empty. */
  predicate StoresCursor(cfg: Config, a: Attempt) {
    var w := RunScan(RunConfig(cfg, a), a.pages).watermark;
    a.windowEnd.None? && w.Some? && w.value != ""
  }

  /** The watermark an attempt leaves: the end of its window, the cursor of a record it committed, or the old one. */
  lemma {:induction false} AttemptWatermark(cfg: Config, db: Db, a: Attempt)
    ensures var db' := AfterAttempt(cfg, db, a);
      if StoresWindow(a) then db'.watermark == a.windowEnd
      else if StoresCursor(cfg, a) then db'.watermark.Some? && CursorOf(cfg, Flatten(a.pages), db'.watermark)
      else db'.watermark == db.watermark
  {
    var begun := Begin(cfg, db).state.db;
    PagesInClosedForm(RunConfig(cfg, a), begun, a.pages);
    if a.windowEnd.None? {
      RunCursors(RunConfig(cfg, a), begun, a.pages);
      SameCursors(cfg, a);
    }
  }

  lemma {:induction false} NoCheckpoints(cfg: Config, db: Db, pages: seq<seq<Item>>)
    requires cfg.checkpointEvery == 0
    ensures Pages(cfg, State(db, NO_PROGRESS), pages).run.checkpoint.None?
  {
    if pages != [] { NoCheckpoints(cfg, db, pages[..|pages| - 1]); }
  }

  /** The attempt was killed after it had saved a checkpoint with a cursor. */
  predicate LeavesCursor(cfg: Config, db: Db, a: Attempt) {
    var left := LeftBehind(cfg, db, a);
    left != [] && left[0].Some?
  }

  lemma {:induction false} NoneLeftBehind(cfg: Config, db: Db, a: Attempt)
    requires cfg.checkpointEvery == 0
    ensures LeftBehind(cfg, db, a) == []
  {
    var begun := Begin(cfg, db).state.db;
    NoCheckpoints(RunConfig(cfg, a), begun, a.pages);
    if a.pages != [] { NoCheckpoints(RunConfig(cfg, a), begun, a.pages[..|a.pages| - 1]); }
  }

  lemma {:induction false} MarksAfter(cfg: Config, db: Db, a: Attempt)
    requires OneMark(cfg, db)
    ensures AfterAttempt(cfg, db, a).interrupted == LeftBehind(cfg, db, a) && |LeftBehind(cfg, db, a)| <= 1
  {
    PagesInClosedForm(RunConfig(cfg, a), Begin(cfg, db).state.db, a.pages);
    OneLeftBehind(cfg, db, a);
    NothingBefore(LeftBehind(cfg, db, a));
  }

  lemma {:induction false} NothingBefore(marks: seq<Option<string>>)
    ensures [] + marks == marks
  {
  }

  lemma {:induction false} OneLeftBehind(cfg: Config, db: Db, a: Attempt)
    ensures |LeftBehind(cfg, db, a)| <= 1
  {
  }

  lemma {:induction false} PickedUp(cfg: Config, db: Db)
    requires OneMark(cfg, db)
    ensures Begin(cfg, db).state.db.interrupted == []
    ensures ResumePoint(cfg, db) ==
      if db.interrupted != [] && db.interrupted[0].Some? then db.interrupted[0] else db.watermark
  {
  }

  /** The checkpoint that an attempt picks up is used up, whatever becomes of the attempt: the next one starts from
      the checkpoint this one leaves, if it has a cursor, and else from the stored watermark. */
  lemma {:induction false} NextResumePoint(cfg: Config, db: Db, a: Attempt)
    requires OneMark(cfg, db)
    ensures var db' := AfterAttempt(cfg, db, a);
      && OneMark(cfg, db') && db'.interrupted == LeftBehind(cfg, db, a)
      && ResumePoint(cfg, db') == if LeavesCursor(cfg, db, a) then LeftBehind(cfg, db, a)[0] else db'.watermark
  {
    MarksAfter(cfg, db, a);
    if cfg.checkpointEvery == 0 { NoneLeftBehind(cfg, db, a); }
    PickedUp(cfg, AfterAttempt(cfg, db, a));
  }

  /** An unprocessed record of the listing lies at or beyond every cursor of the processed ones. */
  lemma {:induction false} BeyondProcessed(cfg: Config, leq: CursorOrder, source: seq<Item>, from: Option<string>, items: seq<Item>,
                        x: Item, w: Option<string>)
    requires SortedSource(cfg, leq, source) && CarriesCursor(cfg, x)
    requires items <= Listing(cfg, leq, source, from) && x in Listing(cfg, leq, source, from) && x !in items
    requires CursorOf(cfg, items, w)
    ensures Listed(cfg, leq, w, x)
  {
    var l := Listing(cfg, leq, source, from);
    ListingSorted(cfg, leq, source, from);
    if w.Some? {
      var k :| 0 <= k < |items| && CarriesCursor(cfg, items[k]) && w.value == Cursor(cfg, items[k]);
      var j :| 0 <= j < |l| && l[j] == x;
      assert l[k] == items[k];
      assert j >= |items|;
    }
  }

  /** A record outside the window lies at or beyond its end, and so beyond every record in it. */
  lemma {:induction false} BeyondWindow(cfg: Config, leq: CursorOrder, source: seq<Item>, from: Option<string>, items: seq<Item>,
                     x: Item, w: Option<string>)
    requires TotalOrder(leq) && (forall i :: 0 <= i < |source| ==> CarriesCursor(cfg, source[i]))
    requires items <= Listing(cfg, leq, source, from) && CarriesCursor(cfg, x) && !InWindow(cfg, leq, x)
    requires w == cfg.windowEnd || CursorOf(cfg, items, w)
    ensures Listed(cfg, leq, w, x)
  {
    if w != cfg.windowEnd && w.Some? {
      var k :| 0 <= k < |items| && CarriesCursor(cfg, items[k]) && w.value == Cursor(cfg, items[k]);
      ListingElements(cfg, leq, source, from);
      assert items[k] == Listing(cfg, leq, source, from)[k];
      assert InWindow(cfg, leq, items[k]);
    }
  }

  // ---------------------------------------------------------------- one attempt

  /** What the exact claim needs: the single-record path and a source with one version per id. */
  ghost predicate ExactApplies(cfg: Config, source: seq<Item>) {
    !UsesBatches(cfg) && OneVersion(cfg, source)
  }

  /** Processed records are settled once their pages are committed, and settled records stay settled. */
  lemma {:induction false} PagesSettle(cfg: Config, source: seq<Item>, db: Db, pages: seq<seq<Item>>, x: Item, exact: bool)
    requires (forall y :: y in Flatten(pages) ==> y in source) && x in source
    requires exact ==> ExactApplies(cfg, source)
    requires x in Flatten(pages) || Settled(cfg, db, x, exact)
    ensures Settled(cfg, AfterPages(cfg, db, pages).db, x, exact)
  {
    var begun := Begin(cfg, db).state.db;
    var items, scan := Flatten(pages), RunScan(cfg, pages);
    PagesInClosedForm(cfg, begun, pages);
    PagesKeys(cfg, begun, pages);
    if x in items {
      var k :| 0 <= k < |items| && items[k] == x;
      ScanSettles(cfg, items, k);
    }
    if !Rejected(cfg, x) && exact {
      ExactRow(cfg, source, db, pages, x);
    }
  }

  lemma {:induction false} ExactRow(cfg: Config, source: seq<Item>, db: Db, pages: seq<seq<Item>>, x: Item)
    requires (forall y :: y in Flatten(pages) ==> y in source) && x in source && !Rejected(cfg, x)
    requires ExactApplies(cfg, source)
    requires x in Flatten(pages) || Settled(cfg, db, x, true)
    ensures Settled(cfg, AfterPages(cfg, db, pages).db, x, true)
  {
    var items, scan := Flatten(pages), RunScan(cfg, pages);
    var id := ExtractId(x.record, cfg.key).value;
    PagesInClosedForm(cfg, Begin(cfg, db).state.db, pages);
    RowsAfterPages(cfg, db, pages);
    if x in items {
      var k :| 0 <= k < |items| && items[k] == x;
      ScanSettles(cfg, items, k);
    }
    if i :| 0 <= i < |scan.accepted| && scan.accepted[i].id == id {
      AcceptedComesFrom(cfg, items, i);
      var y :| y in items && !Rejected(cfg, y) && scan.accepted[i] == Accepted(ExtractId(y.record, cfg.key).value, y.record);
      assert y in source && SameId(cfg, y, x);
    } else {
      assert !Mentions(scan.accepted, id);
      UpsertAllKeys(db.table, scan.accepted);
    }
  }

  /** The end of an attempt keeps rows, and tombstones none that the source still shows. */
  lemma {:induction false} EndingKeepsSettled(cfg: Config, leq: CursorOrder, source: seq<Item>, db: Db, a: Attempt, x: Item,
                                              exact: bool)
    requires SortedSource(cfg, leq, source) && Faithful(cfg, leq, source, db, a) && x in source
    requires exact ==> ExactApplies(cfg, source)
    requires Settled(cfg, AfterPages(RunConfig(cfg, a), db, a.pages).db, x, exact)
    ensures Settled(cfg, AfterAttempt(cfg, db, a), x, exact)
  {
    if a.how.RanToEnd? && exact && !Rejected(cfg, x) {
      TombstoneSafety(RunConfig(cfg, a), db, a.pages, a.how.ending);
      if Begin(cfg, db).watermark.None? { FullRunSees(cfg, leq, source, db, a, x); }
    }
  }

  /** A completed run that started from scratch has seen every record that is not rejected. */
  lemma {:induction false} FullRunSees(cfg: Config, leq: CursorOrder, source: seq<Item>, db: Db, a: Attempt, x: Item)
    requires SortedSource(cfg, leq, source) && Faithful(cfg, leq, source, db, a) && x in source
    requires a.how.RanToEnd? && Begin(cfg, db).watermark.None? && !Rejected(cfg, x)
    ensures ExtractId(x.record, cfg.key).value in AfterPages(RunConfig(cfg, a), db, a.pages).run.seen
  {
    var run, items := RunConfig(cfg, a), Flatten(a.pages);
    ListingElements(run, leq, source, None);
    assert x in items;
    var k :| 0 <= k < |items| && items[k] == x;
    ScanSettles(run, items, k);
    ScanCounts(run, items);
    PagesInClosedForm(run, Begin(cfg, db).state.db, a.pages);
  }

  lemma {:induction false} AttemptSettles(cfg: Config, leq: CursorOrder, source: seq<Item>, db: Db, a: Attempt, x: Item,
                                          exact: bool)
    requires SortedSource(cfg, leq, source) && Faithful(cfg, leq, source, db, a) && x in source
    requires exact ==> ExactApplies(cfg, source)
    requires x in Flatten(a.pages) || Settled(cfg, db, x, exact)
    ensures Settled(cfg, AfterAttempt(cfg, db, a), x, exact)
  {
    var run := RunConfig(cfg, a);
    var listing := Asked(cfg, leq, source, db, a);
    ListingElements(run, leq, source, Begin(cfg, db).watermark);
    forall y | y in Flatten(a.pages) ensures y in source {
      assert y in listing;
    }
    assert Settled(run, db, x, exact) == Settled(cfg, db, x, exact);
    PagesSettle(run, source, db, a.pages, x, exact);
    EndingKeepsSettled(cfg, leq, source, db, a, x, exact);
  }

  /** What an attempt must leave for the next one. It was killed with a checkpoint saved; or it stored the end of its
      window, and every record it asked for and did not get to is settled all the same or lies at or beyond that end;
      or it stored a cursor; or it stored nothing, and no unsettled record is before the watermark that it found. */
  ghost predicate SafeAttempt(cfg: Config, leq: CursorOrder, source: seq<Item>, db: Db, a: Attempt, exact: bool)
    requires SortedSource(cfg, leq, source)
  {
    if LeavesCursor(cfg, db, a) then true
    else if StoresWindow(a) then
      forall i :: 0 <= i < |source| ==> UnreachedIsSafe(cfg, leq, source, db, a, source[i], exact)
    else StoresCursor(cfg, a) || Behind(cfg, leq, source, AfterAttempt(cfg, db, a), db.watermark, exact)
  }

  ghost predicate UnreachedIsSafe(cfg: Config, leq: CursorOrder, source: seq<Item>, db: Db, a: Attempt, x: Item, exact: bool)
    requires SortedSource(cfg, leq, source) && CarriesCursor(cfg, x)
  {
    x in Asked(cfg, leq, source, db, a) && x !in Flatten(a.pages) ==>
      Settled(cfg, AfterAttempt(cfg, db, a), x, exact) || Listed(cfg, leq, a.windowEnd, x)
  }

  /** The resume point being at or before every unsettled record survives an attempt, killed, failed or completed, if
      and only if the attempt is a safe one. */
  lemma {:induction false} AttemptKeepsResumableIff(cfg: Config, leq: CursorOrder, source: seq<Item>, db: Db, a: Attempt,
                                                    exact: bool)
    requires SortedSource(cfg, leq, source) && Faithful(cfg, leq, source, db, a) && OneMark(cfg, db)
    requires Resumable(cfg, leq, source, db, exact)
    requires exact ==> ExactApplies(cfg, source)
    ensures Resumable(cfg, leq, source, AfterAttempt(cfg, db, a), exact) <==> SafeAttempt(cfg, leq, source, db, a, exact)
  {
    var db' := AfterAttempt(cfg, db, a);
    AttemptWatermark(cfg, db, a);
    NextResumePoint(cfg, db, a);
    if SafeAttempt(cfg, leq, source, db, a, exact) {
      forall i | 0 <= i < |source| && !Settled(cfg, db', source[i], exact)
        ensures Listed(cfg, leq, ResumePoint(cfg, db'), source[i])
      {
        UnsettledStaysAhead(cfg, leq, source, db, a, i, exact);
      }
    }
    if Resumable(cfg, leq, source, db', exact) && StoresWindow(a) && !LeavesCursor(cfg, db, a) {
      forall i | 0 <= i < |source| ensures UnreachedIsSafe(cfg, leq, source, db, a, source[i], exact) {
        assert Settled(cfg, db', source[i], exact) || Listed(cfg, leq, ResumePoint(cfg, db'), source[i]);
      }
    }
  }

  lemma {:induction false} UnsettledStaysAhead(cfg: Config, leq: CursorOrder, source: seq<Item>, db: Db, a: Attempt, i: nat,
                                               exact: bool)
    requires SortedSource(cfg, leq, source) && Faithful(cfg, leq, source, db, a) && OneMark(cfg, db) && i < |source|
    requires Resumable(cfg, leq, source, db, exact) && SafeAttempt(cfg, leq, source, db, a, exact)
    requires exact ==> ExactApplies(cfg, source)
    requires !Settled(cfg, AfterAttempt(cfg, db, a), source[i], exact)
    ensures Listed(cfg, leq, ResumePoint(cfg, AfterAttempt(cfg, db, a)), source[i])
  {
    var x, db' := source[i], AfterAttempt(cfg, db, a);
    UnsettledIsUnreached(cfg, leq, source, db, a, i, exact);
    AttemptWatermark(cfg, db, a);
    NextResumePoint(cfg, db, a);
    if LeavesCursor(cfg, db, a) {
      LeftBehindCursors(cfg, db, a);
      UnreachedIsBeyond(cfg, leq, source, db, a, x, LeftBehind(cfg, db, a)[0]);
    } else if StoresWindow(a) {
      assert UnreachedIsSafe(cfg, leq, source, db, a, x, exact);
      UnreachedIsBeyond(cfg, leq, source, db, a, x, a.windowEnd);
    } else if StoresCursor(cfg, a) {
      UnreachedIsBeyond(cfg, leq, source, db, a, x, db'.watermark);
    }
  }

  lemma {:induction false} UnsettledIsUnreached(cfg: Config, leq: CursorOrder, source: seq<Item>, db: Db, a: Attempt, i: nat,
                                                exact: bool)
    requires SortedSource(cfg, leq, source) && Faithful(cfg, leq, source, db, a) && i < |source|
    requires exact ==> ExactApplies(cfg, source)
    requires !Settled(cfg, AfterAttempt(cfg, db, a), source[i], exact)
    ensures source[i] !in Flatten(a.pages) && !Settled(cfg, db, source[i], exact)
  {
    var x := source[i];
    if x in Flatten(a.pages) || Settled(cfg, db, x, exact) { AttemptSettles(cfg, leq, source, db, a, x, exact); }
  }

  /** A record that the attempt did not get to, asked for or beyond its window, lies at or beyond the records it
      committed; one beyond the window also lies at or beyond its end. */
  lemma {:induction false} UnreachedIsBeyond(cfg: Config, leq: CursorOrder, source: seq<Item>, db: Db, a: Attempt, x: Item,
                                             w: Option<string>)
    requires SortedSource(cfg, leq, source) && Faithful(cfg, leq, source, db, a) && x in source && CarriesCursor(cfg, x)
    requires Listed(cfg, leq, ResumePoint(cfg, db), x) && x !in Flatten(a.pages)
    requires CursorOf(cfg, Flatten(a.pages), w) ||
      (w == a.windowEnd && (x in Asked(cfg, leq, source, db, a) ==> Listed(cfg, leq, w, x)))
    ensures Listed(cfg, leq, w, x)
  {
    var run, from := RunConfig(cfg, a), Begin(cfg, db).watermark;
    assert Listed(run, leq, from, x);
    ListingElements(run, leq, source, from);
    if CursorOf(cfg, Flatten(a.pages), w) { SameCursor(cfg, a, w); }
    if InWindow(run, leq, x) {
      if CursorOf(cfg, Flatten(a.pages), w) { BeyondProcessed(run, leq, source, from, Flatten(a.pages), x, w); }
    } else {
      BeyondWindow(run, leq, source, from, Flatten(a.pages), x, w);
    }
  }

  /** An attempt that runs to its end settles every record that is not beyond its window. */
  lemma {:induction false} CompletedSettles(cfg: Config, leq: CursorOrder, source: seq<Item>, db: Db, a: Attempt, i: nat,
                                            exact: bool)
    requires SortedSource(cfg, leq, source) && Faithful(cfg, leq, source, db, a) && i < |source|
    requires Resumable(cfg, leq, source, db, exact) && a.how.RanToEnd?
    requires exact ==> ExactApplies(cfg, source)
    ensures Settled(cfg, AfterAttempt(cfg, db, a), source[i], exact) || !InWindow(RunConfig(cfg, a), leq, source[i])
  {
    var x := source[i];
    ListingElements(RunConfig(cfg, a), leq, source, Begin(cfg, db).watermark);
    if x in Flatten(a.pages) || Settled(cfg, db, x, exact) {
      AttemptSettles(cfg, leq, source, db, a, x, exact);
    } else {
      assert Listed(RunConfig(cfg, a), leq, Begin(cfg, db).watermark, x);
    }
  }

  // ---------------------------------------------------------------- any number of attempts

  lemma {:induction false} HistoryMarks(cfg: Config, leq: CursorOrder, source: seq<Item>, dbs: seq<Db>, attempts: seq<Attempt>,
                                        n: nat)
    requires History(cfg, leq, source, dbs, attempts) && n < |dbs|
    ensures OneMark(cfg, dbs[n])
  {
    if n > 0 {
      HistoryMarks(cfg, leq, source, dbs, attempts, n - 1);
      NextResumePoint(cfg, dbs[n - 1], attempts[n - 1]);
    }
  }

  ghost predicate SafeAttempts(cfg: Config, leq: CursorOrder, source: seq<Item>, dbs: seq<Db>, attempts: seq<Attempt>,
                               n: nat, exact: bool)
    requires SortedSource(cfg, leq, source) && n <= |attempts| && n <= |dbs|
  {
    forall i :: 0 <= i < n ==> SafeAttempt(cfg, leq, source, dbs[i], attempts[i], exact)
  }

  ghost predicate AlwaysResumable(cfg: Config, leq: CursorOrder, source: seq<Item>, dbs: seq<Db>, n: nat, exact: bool)
    requires SortedSource(cfg, leq, source) && n < |dbs|
  {
    forall i :: 0 <= i <= n ==> Resumable(cfg, leq, source, dbs[i], exact)
  }

  /** Over any history of killed, failed and completed attempts, with or without windows and checkpoints: the resume
      point stays at or before every unsettled record if and only if every attempt was a safe one. */
  lemma {:induction false} HistoryResumableIff(cfg: Config, leq: CursorOrder, source: seq<Item>, dbs: seq<Db>,
                                               attempts: seq<Attempt>, n: nat, exact: bool)
    requires History(cfg, leq, source, dbs, attempts) && n < |dbs|
    requires exact ==> ExactApplies(cfg, source)
    ensures AlwaysResumable(cfg, leq, source, dbs, n, exact) <==> SafeAttempts(cfg, leq, source, dbs, attempts, n, exact)
  {
    if n == 0 {
      assert Resumable(cfg, leq, source, dbs[0], exact);
    } else {
      var m := n - 1;
      HistoryResumableIff(cfg, leq, source, dbs, attempts, m, exact);
      HistoryMarks(cfg, leq, source, dbs, attempts, m);
      ResumableLast(cfg, leq, source, dbs, n, exact);
      if Resumable(cfg, leq, source, dbs[m], exact) {
        AttemptKeepsResumableIff(cfg, leq, source, dbs[m], attempts[m], exact);
      }
    }
  }

  lemma {:induction false} ResumableLast(cfg: Config, leq: CursorOrder, source: seq<Item>, dbs: seq<Db>, n: nat, exact: bool)
    requires SortedSource(cfg, leq, source) && 0 < n < |dbs|
    ensures AlwaysResumable(cfg, leq, source, dbs, n, exact) <==>
      AlwaysResumable(cfg, leq, source, dbs, n - 1, exact) && Resumable(cfg, leq, source, dbs[n], exact)
    ensures AlwaysResumable(cfg, leq, source, dbs, n - 1, exact) ==> Resumable(cfg, leq, source, dbs[n - 1], exact)
  {
  }

  /** After any history of safe attempts, one that runs to its end leaves every record of the source with a row or a
      dead letter, except those beyond the end of its own window. */
  lemma {:induction false} SafeAttemptsLoseNothing(cfg: Config, leq: CursorOrder, source: seq<Item>, dbs: seq<Db>,
                                                   attempts: seq<Attempt>, n: nat, exact: bool)
    requires History(cfg, leq, source, dbs, attempts) && n < |attempts| && attempts[n].how.RanToEnd?
    requires SafeAttempts(cfg, leq, source, dbs, attempts, n, exact)
    requires exact ==> ExactApplies(cfg, source)
    ensures forall i :: 0 <= i < |source| ==>
      Settled(cfg, dbs[n + 1], source[i], exact) || !InWindow(RunConfig(cfg, attempts[n]), leq, source[i])
  {
    HistoryResumableIff(cfg, leq, source, dbs, attempts, n, exact);
    assert Resumable(cfg, leq, source, dbs[n], exact);
    forall i | 0 <= i < |source|
      ensures Settled(cfg, dbs[n + 1], source[i], exact) || !InWindow(RunConfig(cfg, attempts[n]), leq, source[i])
    {
      CompletedSettles(cfg, leq, source, dbs[n], attempts[n], i, exact);
    }
  }

  // ---------------------------------------------------------------- without a window

  /** As long as no window is stored the watermark, too, stays at or before the unsettled records. */
  lemma {:induction false} WatermarkStaysBehind(cfg: Config, leq: CursorOrder, source: seq<Item>, db: Db, a: Attempt, exact: bool)
    requires SortedSource(cfg, leq, source) && Faithful(cfg, leq, source, db, a) && !StoresWindow(a)
    requires Resumable(cfg, leq, source, db, exact) && Behind(cfg, leq, source, db, db.watermark, exact)
    requires exact ==> ExactApplies(cfg, source)
    ensures Behind(cfg, leq, source, AfterAttempt(cfg, db, a), AfterAttempt(cfg, db, a).watermark, exact)
    ensures SafeAttempt(cfg, leq, source, db, a, exact)
  {
    var db' := AfterAttempt(cfg, db, a);
    AttemptWatermark(cfg, db, a);
    forall i | 0 <= i < |source| && !Settled(cfg, db', source[i], exact) ensures Listed(cfg, leq, db'.watermark, source[i]) {
      UnsettledIsUnreached(cfg, leq, source, db, a, i, exact);
      if StoresCursor(cfg, a) { UnreachedIsBeyond(cfg, leq, source, db, a, source[i], db'.watermark); }
    }
  }

  lemma {:induction false} SafeLast(cfg: Config, leq: CursorOrder, source: seq<Item>, dbs: seq<Db>, attempts: seq<Attempt>,
                                    m: nat, exact: bool)
    requires SortedSource(cfg, leq, source) && m < |attempts| && m < |dbs|
    requires SafeAttempts(cfg, leq, source, dbs, attempts, m, exact) && SafeAttempt(cfg, leq, source, dbs[m], attempts[m], exact)
    ensures SafeAttempts(cfg, leq, source, dbs, attempts, m + 1, exact)
  {
  }

  /** Attempts without a window are safe, however they end. */
  lemma {:induction false} NoWindowIsSafe(cfg: Config, leq: CursorOrder, source: seq<Item>, dbs: seq<Db>, attempts: seq<Attempt>,
                                          n: nat, exact: bool)
    requires History(cfg, leq, source, dbs, attempts) && n < |dbs|
    requires forall i :: 0 <= i < n ==> attempts[i].windowEnd.None?
    requires exact ==> ExactApplies(cfg, source)
    ensures SafeAttempts(cfg, leq, source, dbs, attempts, n, exact)
    ensures Behind(cfg, leq, source, dbs[n], dbs[n].watermark, exact)
  {
    if n > 0 {
      var m := n - 1;
      NoWindowIsSafe(cfg, leq, source, dbs, attempts, m, exact);
      HistoryResumableIff(cfg, leq, source, dbs, attempts, m, exact);
      assert Resumable(cfg, leq, source, dbs[m], exact);
      WatermarkStaysBehind(cfg, leq, source, dbs[m], attempts[m], exact);
      SafeLast(cfg, leq, source, dbs, attempts, m, exact);
    }
  }

  /** Without `cursor_window`: however many attempts crashed or failed, after whichever page and with or without a
      saved checkpoint, once an attempt runs to its end every record of the source has a row or a dead letter. */
  lemma {:induction false} NothingIsLost(cfg: Config, leq: CursorOrder, source: seq<Item>, dbs: seq<Db>,
                                         attempts: seq<Attempt>, n: nat)
    requires History(cfg, leq, source, dbs, attempts) && n < |attempts| && attempts[n].how.RanToEnd?
    requires forall i :: 0 <= i <= n ==> attempts[i].windowEnd.None?
    ensures forall i :: 0 <= i < |source| ==> Settled(cfg, dbs[n + 1], source[i], false)
  {
    NoWindowIsSafe(cfg, leq, source, dbs, attempts, n, false);
    SafeAttemptsLoseNothing(cfg, leq, source, dbs, attempts, n, false);
  }

  /** On the single-record path with one version per id, each row is then live and carries the record's hash. */
  lemma {:induction false} EverythingIsCurrent(cfg: Config, leq: CursorOrder, source: seq<Item>, dbs: seq<Db>,
                                               attempts: seq<Attempt>, n: nat)
    requires History(cfg, leq, source, dbs, attempts) && n < |attempts| && attempts[n].how.RanToEnd?
    requires forall i :: 0 <= i <= n ==> attempts[i].windowEnd.None?
    requires ExactApplies(cfg, source)
    ensures forall i :: 0 <= i < |source| ==> Settled(cfg, dbs[n + 1], source[i], true)
  {
    NoWindowIsSafe(cfg, leq, source, dbs, attempts, n, true);
    SafeAttemptsLoseNothing(cfg, leq, source, dbs, attempts, n, true);
  }
}
