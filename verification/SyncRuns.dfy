/** What a whole sync run does to the table and to its counters. */
module SyncRuns {
  import opened Wrappers
  import opened SourceTable
  import opened BatchRows
  import opened SyncEngine

  const NOTHING := Scan([], [], {}, 0, None)

  function Flatten(pages: seq<seq<Item>>): seq<Item> {
    if pages == [] then [] else Flatten(pages[..|pages| - 1]) + pages[|pages| - 1]
  }

  /** What all pages of a run add up to, however they are cut. */
  function RunScan(cfg: Config, pages: seq<seq<Item>>): Scan {
    ScanItems(cfg, NOTHING, Flatten(pages))
  }

  /** The state after the page loop of a run that found the database as `db`. */
  function AfterPages(cfg: Config, db: Db, pages: seq<seq<Item>>): State {
    Pages(cfg, Begin(cfg, db).state, pages)
  }

  function AfterRun(cfg: Config, db: Db, pages: seq<seq<Item>>, e: Ending): Outcome {
    Finish(cfg, AfterPages(cfg, db, pages), db.watermark, Begin(cfg, db).watermark, e)
  }

  // ---------------------------------------------------------------- scans

  lemma {:induction false} ScanAppend(cfg: Config, s: Scan, a: seq<Item>, b: seq<Item>)
    ensures ScanItems(cfg, s, a + b) == ScanItems(cfg, ScanItems(cfg, s, a), b)
  {
    if b == [] {
      assert a + b == a;
    } else {
      var n := |b| - 1;
      ScanAppend(cfg, s, a, b[..n]);
      assert (a + b)[..|a| + n] == a + b[..n] && (a + b)[|a| + n] == b[n];
      ScanLast(cfg, s, a + b);
      ScanLast(cfg, ScanItems(cfg, s, a), b);
    }
  }

  lemma {:induction false} ScanLast(cfg: Config, s: Scan, items: seq<Item>)
    requires items != []
    ensures ScanItems(cfg, s, items) == ScanItem(cfg, ScanItems(cfg, s, items[..|items| - 1]), items[|items| - 1])
  {
  }

  /** A scan that starts with empty lists, put behind what was collected before. */
  ghost function Onto(s: Scan, d: Scan): Scan {
    Scan(s.accepted + d.accepted, s.dead + d.dead, d.seen, s.duplicates + d.duplicates, d.watermark)
  }

  lemma {:induction false} ScanOnto(cfg: Config, s: Scan, items: seq<Item>)
    ensures ScanItems(cfg, s, items) == Onto(s, ScanItems(cfg, Scan([], [], s.seen, 0, s.watermark), items))
  {
    if items != [] {
      var n := |items| - 1;
      ScanOnto(cfg, s, items[..n]);
      var d := ScanItems(cfg, Scan([], [], s.seen, 0, s.watermark), items[..n]);
      assert ScanItem(cfg, Onto(s, d), items[n]) == Onto(s, ScanItem(cfg, d, items[n]));
    }
  }

  ghost predicate ScanValid(s: Scan, size: nat) {
    && DistinctIds(s.accepted) && |s.seen| == |s.accepted|
    && (forall id :: id in s.seen <==> Mentions(s.accepted, id))
    && |s.accepted| + |s.dead| + s.duplicates == size
  }

  lemma {:induction false} ScanCounts(cfg: Config, items: seq<Item>)
    ensures ScanValid(ScanItems(cfg, NOTHING, items), |items|)
  {
    if items != [] {
      var n := |items| - 1;
      ScanCounts(cfg, items[..n]);
      var s, item := ScanItems(cfg, NOTHING, items[..n]), items[n];
      var s' := ScanItem(cfg, s, item);
      if s'.accepted != s.accepted {
        MentionsPrefix(s'.accepted);
        assert s'.accepted[..|s.accepted|] == s.accepted;
        forall i, j | 0 <= i < j < |s'.accepted| ensures s'.accepted[i].id != s'.accepted[j].id {
          assert Mentions(s.accepted, s'.accepted[i].id);
        }
      }
    }
  }

  lemma {:induction false} UpsertAllAppend(t: Table, a: seq<Accepted>, b: seq<Accepted>)
    ensures var first := UpsertAll(t, a);
      UpsertAll(t, a + b) == Then(first, UpsertAll(first.table, b))
  {
    if b == [] {
      assert a + b == a;
    } else {
      var n := |b| - 1;
      UpsertAllAppend(t, a, b[..n]);
      assert (a + b)[..|a| + n] == a + b[..n] && (a + b)[|a| + n] == b[n];
    }
  }

  // ---------------------------------------------------------------- the page loop in closed form

  /** With a window its end is stored by any record at all; without one the greatest cursor is. */
  function WatermarkAfter(cfg: Config, stored: Option<string>, s: Scan, size: nat): Option<string> {
    if size == 0 then stored else StoredWatermark(stored, EffectiveWatermark(cfg, s.watermark))
  }

  /** Counters, ids and cursor depend only on the records, not on how they are paged or written. */
  ghost predicate ScanPart(cfg: Config, db: Db, st: State, s: Scan, size: nat) {
    && st.run.seen == s.seen && st.run.watermark == s.watermark
    && st.run.fetched == size - s.duplicates && st.run.errored == |s.dead|
    && st.db.dead == db.dead + s.dead
    && st.db.watermark == WatermarkAfter(cfg, db.watermark, s, size)
    && st.db.interrupted == db.interrupted
  }

  ghost predicate TablePart(db: Db, st: State, s: Scan) {
    Written(st.db.table, st.run.inserted, st.run.updated) == UpsertAll(db.table, s.accepted)
  }

  lemma {:induction false} WatermarkStays(cfg: Config, s: Scan, items: seq<Item>)
    ensures s.watermark.Some? && s.watermark.value != "" ==>
      ScanItems(cfg, s, items).watermark.Some? && ScanItems(cfg, s, items).watermark.value != ""
  {
    if items != [] { WatermarkStays(cfg, s, items[..|items| - 1]); }
  }

  lemma {:induction false} PageScanContinues(cfg: Config, run: Progress, items: seq<Item>, page: seq<Item>)
    requires var s := ScanItems(cfg, NOTHING, items); run.seen == s.seen && run.watermark == s.watermark
    ensures ScanItems(cfg, NOTHING, items + page) == Onto(ScanItems(cfg, NOTHING, items), PageScan(cfg, run, page))
  {
    ScanAppend(cfg, NOTHING, items, page);
    ScanOnto(cfg, ScanItems(cfg, NOTHING, items), page);
  }

  lemma {:induction false} ScanPartStep(cfg: Config, db: Db, st: State, items: seq<Item>, page: seq<Item>)
    requires ScanPart(cfg, db, st, ScanItems(cfg, NOTHING, items), |items|)
    ensures ScanPart(cfg, db, OnePage(cfg, st, page), ScanItems(cfg, NOTHING, items + page), |items + page|)
  {
    if page == [] {
      assert items + page == items;
    } else {
      var s := ScanItems(cfg, NOTHING, items);
      var run := st.run.(page := st.run.page + 1, fetched := st.run.fetched + |page|);
      PageScanContinues(cfg, run, items, page);
      WatermarkStep(cfg, db.watermark, items, page);
      assert db.dead + (s.dead + PageScan(cfg, run, page).dead) == db.dead + s.dead + PageScan(cfg, run, page).dead;
    }
  }

  lemma {:induction false} WatermarkStep(cfg: Config, stored: Option<string>, items: seq<Item>, page: seq<Item>)
    requires page != []
    ensures var before, after := ScanItems(cfg, NOTHING, items), ScanItems(cfg, NOTHING, items + page);
      WatermarkAfter(cfg, stored, after, |items + page|) ==
      StoredWatermark(WatermarkAfter(cfg, stored, before, |items|), EffectiveWatermark(cfg, after.watermark))
  {
    ScanAppend(cfg, NOTHING, items, page);
    WatermarkStays(cfg, ScanItems(cfg, NOTHING, items), page);
  }

  lemma {:induction false} TablePartStep(cfg: Config, db: Db, st: State, items: seq<Item>, page: seq<Item>)
    requires !UsesBatches(cfg)
    requires var s := ScanItems(cfg, NOTHING, items);
      st.run.seen == s.seen && st.run.watermark == s.watermark && TablePart(db, st, s)
    ensures TablePart(db, OnePage(cfg, st, page), ScanItems(cfg, NOTHING, items + page))
  {
    if page == [] {
      assert items + page == items;
    } else {
      var run := st.run.(page := st.run.page + 1, fetched := st.run.fetched + |page|);
      PageScanContinues(cfg, run, items, page);
      UpsertAllAppend(db.table, ScanItems(cfg, NOTHING, items).accepted, PageScan(cfg, run, page).accepted);
    }
  }

  lemma {:induction false} PagesInClosedForm(cfg: Config, db: Db, pages: seq<seq<Item>>)
    ensures var st := Pages(cfg, State(db, NO_PROGRESS), pages);
      && ScanPart(cfg, db, st, RunScan(cfg, pages), |Flatten(pages)|)
      && (!UsesBatches(cfg) ==> TablePart(db, st, RunScan(cfg, pages)))
  {
    if pages != [] {
      var n := |pages| - 1;
      PagesInClosedForm(cfg, db, pages[..n]);
      var st := Pages(cfg, State(db, NO_PROGRESS), pages[..n]);
      ScanPartStep(cfg, db, st, Flatten(pages[..n]), pages[n]);
      if !UsesBatches(cfg) { TablePartStep(cfg, db, st, Flatten(pages[..n]), pages[n]); }
    } else {
      assert db.dead + [] == db.dead;
    }
  }

  // ---------------------------------------------------------------- counters

  /** After any page: every record fetched and not skipped as a repetition is either errored or seen. */
  lemma {:induction false} FetchedIsErroredPlusSeen(cfg: Config, db: Db, pages: seq<seq<Item>>)
    ensures var run := AfterPages(cfg, db, pages).run;
      run.fetched == run.errored + |run.seen|
  {
    PagesInClosedForm(cfg, Begin(cfg, db).state.db, pages);
    ScanCounts(cfg, Flatten(pages));
  }

  ghost function Changed(t: Table, recs: seq<Accepted>): set<string> {
    set i | 0 <= i < |recs| && recs[i].id in t && t[recs[i].id].hash != RawHash(recs[i].record) :: recs[i].id
  }

  ghost function Same(t: Table, recs: seq<Accepted>): set<string> {
    set i | 0 <= i < |recs| && recs[i].id in t && t[recs[i].id].hash == RawHash(recs[i].record) :: recs[i].id
  }

  lemma {:induction false} UpsertCounts(t: Table, recs: seq<Accepted>)
    requires DistinctIds(recs)
    ensures var w := UpsertAll(t, recs);
      w.inserted == |Ids(recs) - t.Keys| && w.updated == |Changed(t, recs)| &&
      |recs| == w.inserted + w.updated + |Same(t, recs)|
  {
    if recs != [] {
      var n := |recs| - 1;
      var a := recs[n];
      UpsertCounts(t, recs[..n]);
      assert !Mentions(recs[..n], a.id);
      SizesSnoc(t, recs);
      UpsertAllLast(t, recs);
    }
  }

  lemma {:induction false} SizesSnoc(t: Table, recs: seq<Accepted>)
    requires recs != [] && !Mentions(recs[..|recs| - 1], recs[|recs| - 1].id)
    ensures var n := |recs| - 1;
      var a, c := recs[n], recs[..n];
      && |Ids(recs) - t.Keys| == |Ids(c) - t.Keys| + (if a.id in t then 0 else 1)
      && |Changed(t, recs)| == |Changed(t, c)| + (if a.id in t && t[a.id].hash != RawHash(a.record) then 1 else 0)
      && |Same(t, recs)| == |Same(t, c)| + (if a.id in t && t[a.id].hash == RawHash(a.record) then 1 else 0)
  {
    IdsSnoc(t, recs);
  }

  lemma {:induction false} UpsertAllLast(t: Table, recs: seq<Accepted>)
    requires recs != [] && !Mentions(recs[..|recs| - 1], recs[|recs| - 1].id)
    ensures var n := |recs| - 1;
      var before, a := UpsertAll(t, recs[..n]), recs[n];
      && UpsertAll(t, recs).inserted == before.inserted + (if a.id in t then 0 else 1)
      && UpsertAll(t, recs).updated == before.updated + (if a.id in t && t[a.id].hash != RawHash(a.record) then 1 else 0)
  {
    UpsertAllKeys(t, recs[..|recs| - 1]);
  }

  lemma {:induction false} IdsSnoc(t: Table, recs: seq<Accepted>)
    requires recs != [] && !Mentions(recs[..|recs| - 1], recs[|recs| - 1].id)
    ensures var n := |recs| - 1;
      var a, c := recs[n], recs[..n];
      && Ids(recs) - t.Keys == (Ids(c) - t.Keys) + (if a.id in t then {} else {a.id})
      && Changed(t, recs) == Changed(t, c) + (if a.id in t && t[a.id].hash != RawHash(a.record) then {a.id} else {})
      && Same(t, recs) == Same(t, c) + (if a.id in t && t[a.id].hash == RawHash(a.record) then {a.id} else {})
      && a.id !in Ids(c) && a.id !in Changed(t, c) && a.id !in Same(t, c)
  {
    var n := |recs| - 1;
    var c := recs[..n];
    assert forall i :: 0 <= i < n ==> c[i] == recs[i];
    assert Ids(recs) == Ids(c) + {recs[n].id};
  }

  /** On the single-record path: inserts are the ids the table lacked, updates those whose hash differed,
      and together with the unchanged ones they are all the ids seen. */
  lemma {:induction false} SinglePathCounts(cfg: Config, db: Db, pages: seq<seq<Item>>)
    requires !UsesBatches(cfg)
    ensures var run, recs := AfterPages(cfg, db, pages).run, RunScan(cfg, pages).accepted;
      && run.inserted == |run.seen - db.table.Keys|
      && run.updated == |Changed(db.table, recs)|
      && |run.seen| == run.inserted + run.updated + |Same(db.table, recs)|
  {
    var s := RunScan(cfg, pages);
    PagesInClosedForm(cfg, Begin(cfg, db).state.db, pages);
    ScanCounts(cfg, Flatten(pages));
    UpsertCounts(db.table, s.accepted);
    SeenAreIds(s, |Flatten(pages)|);
  }

  lemma {:induction false} SeenAreIds(s: Scan, size: nat)
    requires ScanValid(s, size)
    ensures Ids(s.accepted) == s.seen
  {
    forall id ensures id in Ids(s.accepted) <==> Mentions(s.accepted, id) {}
  }

  // ---------------------------------------------------------------- rows after a run

  lemma {:induction false} RowsAfterPages(cfg: Config, db: Db, pages: seq<seq<Item>>)
    requires !UsesBatches(cfg)
    ensures var st, recs := AfterPages(cfg, db, pages), RunScan(cfg, pages).accepted;
      && (forall i :: 0 <= i < |recs| ==>
            recs[i].id in st.run.seen && recs[i].id in st.db.table &&
            Upserted(db.table, recs[i], st.db.table[recs[i].id]))
      && (forall id :: id in st.run.seen ==> id in st.db.table && !st.db.table[id].deleted)
      && LiveIds(st.db.table) == LiveIds(db.table) + st.run.seen
  {
    PagesInClosedForm(cfg, Begin(cfg, db).state.db, pages);
    ScanCounts(cfg, Flatten(pages));
    RowsAfterUpserts(db.table, RunScan(cfg, pages), |Flatten(pages)|);
  }

  lemma {:induction false} RowsAfterUpserts(t: Table, s: Scan, size: nat)
    requires ScanValid(s, size)
    ensures var after, recs := UpsertAll(t, s.accepted).table, s.accepted;
      && (forall i :: 0 <= i < |recs| ==>
            recs[i].id in s.seen && recs[i].id in after && Upserted(t, recs[i], after[recs[i].id]))
      && (forall id :: id in s.seen ==> id in after && !after[id].deleted)
      && LiveIds(after) == LiveIds(t) + s.seen
  {
    var after, recs := UpsertAll(t, s.accepted).table, s.accepted;
    UpsertAllKeys(t, recs);
    forall i | 0 <= i < |recs|
      ensures recs[i].id in s.seen && recs[i].id in after && Upserted(t, recs[i], after[recs[i].id])
    {
      UpsertAllRow(t, recs, i);
      assert Mentions(recs, recs[i].id);
    }
    forall id | id in s.seen ensures id in after && !after[id].deleted {
      var i :| 0 <= i < |recs| && recs[i].id == id;
    }
  }

  lemma {:induction false} WriteAllGrows(cfg: Config, t: Table, recs: seq<Accepted>)
    requires UsesBatches(cfg)
    ensures Grows(t, WriteAll(cfg, t, recs).table, Ids(recs))
  {
    BulkAllGrows(t, recs, cfg.batchSize);
  }

  /** On the batch path the page loop adds the ids it accepts, as live rows, and leaves every tombstone. */
  lemma {:induction false} BatchPagesGrow(cfg: Config, db: Db, pages: seq<seq<Item>>)
    requires UsesBatches(cfg)
    ensures Grows(db.table, Pages(cfg, State(db, NO_PROGRESS), pages).db.table, Ids(RunScan(cfg, pages).accepted))
  {
    if pages != [] {
      var n := |pages| - 1;
      BatchPagesGrow(cfg, db, pages[..n]);
      PagesInClosedForm(cfg, db, pages[..n]);
      var st := Pages(cfg, State(db, NO_PROGRESS), pages[..n]);
      var run := st.run.(page := st.run.page + 1, fetched := st.run.fetched + |pages[n]|);
      PageScanContinues(cfg, run, Flatten(pages[..n]), pages[n]);
      var d := PageScan(cfg, run, pages[n]);
      WriteAllGrows(cfg, st.db.table, d.accepted);
      IdsConcat(RunScan(cfg, pages[..n]).accepted, d.accepted);
      if pages[n] == [] { assert d.accepted == []; }
    }
  }

  /** The ids that the page loop leaves live because it saw them: all of them on the single-record path; the batch
      path does not revive a tombstone. */
  function Shown(cfg: Config, t: Table, seen: set<string>): set<string> {
    if UsesBatches(cfg) then seen - Tombstoned(t) else seen
  }

  lemma {:induction false} LiveAfterPages(cfg: Config, db: Db, pages: seq<seq<Item>>)
    ensures var st := AfterPages(cfg, db, pages);
      && st.run.seen <= st.db.table.Keys
      && LiveIds(st.db.table) == LiveIds(db.table) + Shown(cfg, db.table, st.run.seen)
  {
    if UsesBatches(cfg) {
      var begun := Begin(cfg, db).state.db;
      BatchPagesGrow(cfg, begun, pages);
      PagesInClosedForm(cfg, begun, pages);
      ScanCounts(cfg, Flatten(pages));
      SeenAreIds(RunScan(cfg, pages), |Flatten(pages)|);
      GrownLive(db.table, AfterPages(cfg, db, pages).db.table, RunScan(cfg, pages).seen);
    } else {
      RowsAfterPages(cfg, db, pages);
    }
  }

  lemma {:induction false} GrownLive(t: Table, t': Table, ids: set<string>)
    requires Grows(t, t', ids)
    ensures LiveIds(t') == LiveIds(t) + (ids - Tombstoned(t))
  {
    assert LiveIds(t') == t'.Keys - Tombstoned(t') && LiveIds(t) == t.Keys - Tombstoned(t);
  }

  /** The end of a run touches no row of an id it saw, tombstones at most as many ids as it saw, and none at all
      when it aborts on drift or did not start from scratch. On the single-record path the seen ids are live. */
  lemma {:induction false} TombstoneSafety(cfg: Config, db: Db, pages: seq<seq<Item>>, e: Ending)
    ensures var st, o := AfterPages(cfg, db, pages), AfterRun(cfg, db, pages, e);
      && (forall id :: id in st.run.seen ==> id in o.table && o.table[id] == st.db.table[id])
      && (!UsesBatches(cfg) ==> forall id :: id in st.run.seen ==> !o.table[id].deleted)
      && LiveIds(o.table) <= LiveIds(st.db.table) && |LiveIds(o.table)| == |LiveIds(st.db.table)| - o.deleted
      && o.deleted <= |st.run.seen|
      && (o.status == Aborted || Begin(cfg, db).watermark.Some? ==> o.table == st.db.table && o.deleted == 0)
  {
    LiveAfterPages(cfg, db, pages);
    FinishSafety(cfg, AfterPages(cfg, db, pages), db.watermark, Begin(cfg, db).watermark, e);
    if !UsesBatches(cfg) { RowsAfterPages(cfg, db, pages); }
  }

  lemma {:induction false} FinishSafety(cfg: Config, st: State, dbWatermark: Option<string>, watermark: Option<string>, e: Ending)
    requires st.run.seen <= st.db.table.Keys
    ensures var o := Finish(cfg, st, dbWatermark, watermark, e);
      && (forall id :: id in st.run.seen ==> id in o.table && o.table[id] == st.db.table[id])
      && LiveIds(o.table) <= LiveIds(st.db.table) && |LiveIds(o.table)| == |LiveIds(st.db.table)| - o.deleted
      && o.deleted <= |st.run.seen|
      && (o.status == Aborted || watermark.Some? ==> o.table == st.db.table && o.deleted == 0)
  {
    var o := Finish(cfg, st, dbWatermark, watermark, e);
    if o.status == Completed && watermark.None? && st.run.seen != {} {
      TombstonePass(st.db.table, st.run.seen, e.gone);
    }
  }

  /** The pass takes only live ids that were not seen, and no more of them than were seen. */
  lemma {:induction false} TombstonePass(t: Table, seen: set<string>, gone: Option<set<string>>)
    ensures var ids := ToTombstone(t, seen, gone);
      && ids <= LiveIds(t) - seen && |ids| <= |seen|
      && LiveIds(Tombstone(t, ids)) == LiveIds(t) - ids && |LiveIds(t) - ids| == |LiveIds(t)| - |ids|
  {
    var live, ids := LiveIds(t), ToTombstone(t, seen, gone);
    SubsetSize(ids, live - seen);
    assert LiveIds(Tombstone(t, ids)) == live - ids;
  }

  /** Of the ids live before a completed full run and not seen by it, those that the ratio guard or the deletion
      check spared. `live` are the ids live when the guard looks. */
  ghost function Spared(before: set<string>, live: set<string>, seen: set<string>, gone: Option<set<string>>): set<string> {
    var missing := before - seen;
    if 2 * |missing| > |live| then missing
    else if gone.Some? then missing - gone.value
    else {}
  }

  /** The ids a full run leaves live. */
  ghost function LiveAfterFullRun(cfg: Config, t: Table, seen: set<string>, gone: Option<set<string>>): set<string> {
    var shown := Shown(cfg, t, seen);
    shown + Spared(LiveIds(t), LiveIds(t) + shown, seen, gone)
  }

  /** After a completed full run, on either write path, exactly those are live. */
  lemma {:induction false} FullRunLiveIds(cfg: Config, db: Db, pages: seq<seq<Item>>, e: Ending)
    requires Begin(cfg, db).watermark.None?
    requires AfterRun(cfg, db, pages, e).status == Completed
    ensures LiveIds(AfterRun(cfg, db, pages, e).table) ==
      LiveAfterFullRun(cfg, db.table, AfterPages(cfg, db, pages).run.seen, e.gone)
  {
    LiveAfterPages(cfg, db, pages);
    TombstonesAllButSpared(LiveIds(db.table), Shown(cfg, db.table, AfterPages(cfg, db, pages).run.seen),
                           AfterPages(cfg, db, pages), e.gone);
  }

  lemma {:induction false} TombstonesAllButSpared(before: set<string>, shown: set<string>, st: State, gone: Option<set<string>>)
    requires shown <= st.run.seen && st.run.seen * before <= shown
    requires LiveIds(st.db.table) == before + shown
    ensures var seen, t := st.run.seen, st.db.table;
      LiveIds(if seen != {} then Tombstone(t, ToTombstone(t, seen, gone)) else t) ==
      shown + Spared(before, before + shown, seen, gone)
  {
    var seen, t := st.run.seen, st.db.table;
    assert (before + shown) - seen == before - seen;
    if seen == {} {
      assert before - seen == before && before + shown == before;
    } else {
      TombstonePass(t, seen, gone);
      SparedAreLeft(before, shown, seen, gone, ToTombstone(t, seen, gone));
    }
  }

  lemma {:induction false} SparedAreLeft(before: set<string>, shown: set<string>, seen: set<string>, gone: Option<set<string>>, ids: set<string>)
    requires shown <= seen && seen * before <= shown
    requires var missing := before - seen;
      ids == if 2 * |missing| > |before + shown| then {} else if gone.Some? then missing * gone.value else missing
    ensures (before + shown) - ids == shown + Spared(before, before + shown, seen, gone)
  {
  }

  /** A row equals the record it was seen with, except when it already had that record's hash over other data
      (a tombstone revived by an unchanged record). */
  lemma {:induction false} RowEqualsRecordIff(cfg: Config, db: Db, pages: seq<seq<Item>>, e: Ending, i: nat)
    requires !UsesBatches(cfg) && i < |RunScan(cfg, pages).accepted|
    ensures var a, t := RunScan(cfg, pages).accepted[i], AfterRun(cfg, db, pages, e).table;
      && a.id in t && t[a.id].hash == RawHash(a.record) && !t[a.id].deleted
      && (t[a.id].data == a.record <==>
            !(a.id in db.table && db.table[a.id].hash == RawHash(a.record) && db.table[a.id].data != a.record))
  {
    RowsAfterPages(cfg, db, pages);
    TombstoneSafety(cfg, db, pages, e);
  }

  /** Such a row stays empty however often the same record comes back. */
  lemma {:induction false} RevivedRowStaysEmpty(t: Table, ids: set<string>, a: Accepted, times: nat)
    requires a.id in ids && a.id in t && t[a.id] == Row(a.record, RawHash(a.record), false)
    ensures var after := UpsertAll(Tombstone(t, ids), seq(times, _ => a)).table;
      a.id in after && after[a.id] == Row(map[], RawHash(a.record), times == 0)
  {
    if times > 0 {
      RevivedRowStaysEmpty(t, ids, a, times - 1);
      assert seq(times, _ => a)[..times - 1] == seq(times - 1, _ => a);
    }
  }

  // ---------------------------------------------------------------- repeating a run

  lemma {:induction false} UpsertAllNoop(t: Table, recs: seq<Accepted>)
    requires Carries(t, recs) && (forall i :: 0 <= i < |recs| ==> !t[recs[i].id].deleted)
    ensures UpsertAll(t, recs) == Written(t, 0, 0)
  {
    if recs != [] {
      var n := |recs| - 1;
      UpsertAllNoop(t, recs[..n]);
      assert t[recs[n].id].(deleted := false) == t[recs[n].id];
    }
  }

  /** Records written before a crash and processed again afterwards end in the same table. */
  lemma {:induction false} ReplayIsIdempotent(t: Table, recs: seq<Accepted>, k: nat)
    requires DistinctIds(recs) && k <= |recs|
    ensures UpsertAll(UpsertAll(t, recs[..k]).table, recs).table == UpsertAll(t, recs).table
  {
    var t1 := UpsertAll(t, recs[..k]).table;
    forall i | 0 <= i < |recs[..k]|
      ensures recs[..k][i].id in t1 && t1[recs[..k][i].id].hash == RawHash(recs[..k][i].record) && !t1[recs[..k][i].id].deleted
    {
      UpsertAllRow(t, recs[..k], i);
    }
    UpsertAllNoop(t1, recs[..k]);
    assert recs == recs[..k] + recs[k..];
    UpsertAllAppend(t1, recs[..k], recs[k..]);
    UpsertAllAppend(t, recs[..k], recs[k..]);
  }

  /** On the batch path too, every accepted record ends with its hash. */
  lemma {:induction false} BatchPagesCarry(cfg: Config, db: Db, pages: seq<seq<Item>>)
    requires UsesBatches(cfg)
    ensures Carries(Pages(cfg, State(db, NO_PROGRESS), pages).db.table, RunScan(cfg, pages).accepted)
  {
    if pages != [] {
      var n := |pages| - 1;
      BatchPagesCarry(cfg, db, pages[..n]);
      PagesInClosedForm(cfg, db, pages[..n]);
      var st := Pages(cfg, State(db, NO_PROGRESS), pages[..n]);
      var run := st.run.(page := st.run.page + 1, fetched := st.run.fetched + |pages[n]|);
      PageScanContinues(cfg, run, Flatten(pages[..n]), pages[n]);
      ScanCounts(cfg, Flatten(pages));
      CarryOn(st.db.table, RunScan(cfg, pages[..n]).accepted, PageScan(cfg, run, pages[n]).accepted, cfg.batchSize);
      if pages[n] == [] { assert PageScan(cfg, run, pages[n]).accepted == []; }
    }
  }

  lemma {:induction false} CarryOn(t: Table, a: seq<Accepted>, b: seq<Accepted>, size: nat)
    requires Carries(t, a) && DistinctIds(a + b)
    ensures Carries(BulkAll(t, b, size).table, a + b)
  {
    RestDistinct(a, b);
    BulkAllCarries(t, b, size);
    var after := BulkAll(t, b, size).table;
    forall i | 0 <= i < |a + b| ensures (a + b)[i].id in after && after[(a + b)[i].id].hash == RawHash((a + b)[i].record) {
      if i >= |a| { assert (a + b)[i] == b[i - |a|]; }
    }
  }

  lemma {:induction false} RestDistinct(a: seq<Accepted>, b: seq<Accepted>)
    requires DistinctIds(a + b)
    ensures DistinctIds(b) && forall i :: 0 <= i < |a| ==> !Mentions(b, a[i].id)
  {
    forall i, j | 0 <= i < j < |b| ensures b[i].id != b[j].id {
      assert (a + b)[|a| + i].id != (a + b)[|a| + j].id;
    }
    forall i, j | 0 <= i < |a| && 0 <= j < |b| ensures b[j].id != a[i].id {
      assert (a + b)[i].id != (a + b)[|a| + j].id;
    }
  }

  /** After a run, on either write path, every accepted record has a row with its hash; the row is live on the
      single-record path. */
  lemma {:induction false} RunCarries(cfg: Config, db: Db, pages: seq<seq<Item>>, e: Ending)
    ensures var recs, t := RunScan(cfg, pages).accepted, AfterRun(cfg, db, pages, e).table;
      Carries(t, recs) && (!UsesBatches(cfg) ==> forall i :: 0 <= i < |recs| ==> !t[recs[i].id].deleted)
  {
    var recs := RunScan(cfg, pages).accepted;
    TombstoneSafety(cfg, db, pages, e);
    PagesInClosedForm(cfg, Begin(cfg, db).state.db, pages);
    ScanCounts(cfg, Flatten(pages));
    if UsesBatches(cfg) {
      BatchPagesCarry(cfg, Begin(cfg, db).state.db, pages);
    } else {
      RowsAfterPages(cfg, db, pages);
    }
    forall i | 0 <= i < |recs| ensures recs[i].id in AfterPages(cfg, db, pages).run.seen {
      assert Mentions(recs, recs[i].id);
    }
  }

  /** A page loop over records whose rows have their hashes writes nothing. */
  lemma {:induction false} PagesNoop(cfg: Config, db: Db, pages: seq<seq<Item>>)
    requires Carries(db.table, RunScan(cfg, pages).accepted)
    requires UsesBatches(cfg) || forall i :: 0 <= i < |RunScan(cfg, pages).accepted| ==>
      !db.table[RunScan(cfg, pages).accepted[i].id].deleted
    ensures var st := Pages(cfg, State(db, NO_PROGRESS), pages);
      st.db.table == db.table && st.run.inserted == 0 && st.run.updated == 0
  {
    if UsesBatches(cfg) {
      BatchPagesNoop(cfg, db, pages);
    } else {
      PagesInClosedForm(cfg, db, pages);
      UpsertAllNoop(db.table, RunScan(cfg, pages).accepted);
    }
  }

  lemma {:induction false} BatchPagesNoop(cfg: Config, db: Db, pages: seq<seq<Item>>)
    requires UsesBatches(cfg) && Carries(db.table, RunScan(cfg, pages).accepted)
    ensures var st := Pages(cfg, State(db, NO_PROGRESS), pages);
      st.db.table == db.table && st.run.inserted == 0 && st.run.updated == 0
  {
    if pages != [] {
      var n := |pages| - 1;
      var st := Pages(cfg, State(db, NO_PROGRESS), pages[..n]);
      var run := st.run.(page := st.run.page + 1, fetched := st.run.fetched + |pages[n]|);
      PagesInClosedForm(cfg, db, pages[..n]);
      PageScanContinues(cfg, run, Flatten(pages[..n]), pages[n]);
      CarriesParts(db.table, RunScan(cfg, pages[..n]).accepted, PageScan(cfg, run, pages[n]).accepted);
      BatchPagesNoop(cfg, db, pages[..n]);
      BulkAllNoop(db.table, PageScan(cfg, run, pages[n]).accepted, cfg.batchSize);
    }
  }

  lemma {:induction false} CarriesParts(t: Table, a: seq<Accepted>, b: seq<Accepted>)
    requires Carries(t, a + b)
    ensures Carries(t, a) && Carries(t, b)
  {
    forall i | 0 <= i < |a| ensures a[i].id in t && t[a[i].id].hash == RawHash(a[i].record) {
      assert (a + b)[i] == a[i];
    }
    forall i | 0 <= i < |b| ensures b[i].id in t && t[b[i].id].hash == RawHash(b[i].record) {
      assert (a + b)[|a| + i] == b[i];
    }
  }

  /** What the guard spared once it spares again. */
  lemma {:induction false} SparedAgain(before: set<string>, shown: set<string>, seen: set<string>, gone: Option<set<string>>, t: Table)
    requires shown <= seen && seen * before <= shown
    requires LiveIds(t) == shown + Spared(before, before + shown, seen, gone)
    ensures ToTombstone(t, seen, gone) == {}
  {
    var missing, spared := before - seen, Spared(before, before + shown, seen, gone);
    assert LiveIds(t) - seen == spared;
    if 2 * |missing| > |before + shown| {
      assert shown + missing == before + shown;
    }
  }

  /** A second full run over the same records, however paged and on either write path, inserts, updates and
      tombstones nothing. */
  lemma {:induction false} SecondRunChangesNothing(cfg: Config, db1: Db, db2: Db, pages1: seq<seq<Item>>, pages2: seq<seq<Item>>,
                                                   e1: Ending, e2: Ending)
    requires Begin(cfg, db1).watermark.None? && Begin(cfg, db2).watermark.None?
    requires AfterRun(cfg, db1, pages1, e1).status == Completed
    requires db2.table == AfterRun(cfg, db1, pages1, e1).table
    requires Flatten(pages1) == Flatten(pages2) && e1.gone == e2.gone
    ensures var run, o := AfterPages(cfg, db2, pages2).run, AfterRun(cfg, db2, pages2, e2);
      run.inserted == 0 && run.updated == 0 && o.deleted == 0 && o.table == db2.table
  {
    RunCarries(cfg, db1, pages1, e1);
    PagesNoop(cfg, Begin(cfg, db2).state.db, pages2);
    SeenOf(cfg, db1, pages1);
    SeenOf(cfg, db2, pages2);
    var seen := RunScan(cfg, pages1).seen;
    FullRunLiveIds(cfg, db1, pages1, e1);
    SparedAgain(LiveIds(db1.table), Shown(cfg, db1.table, seen), seen, e1.gone, db2.table);
    FinishChangesNothing(cfg, AfterPages(cfg, db2, pages2), db2.watermark, Begin(cfg, db2).watermark, e2);
  }

  lemma {:induction false} SeenOf(cfg: Config, db: Db, pages: seq<seq<Item>>)
    ensures AfterPages(cfg, db, pages).run.seen == RunScan(cfg, pages).seen
  {
    PagesInClosedForm(cfg, Begin(cfg, db).state.db, pages);
  }

  lemma {:induction false} FinishChangesNothing(cfg: Config, st: State, dbWatermark: Option<string>, watermark: Option<string>,
                                                e: Ending)
    requires ToTombstone(st.db.table, st.run.seen, e.gone) == {}
    ensures var o := Finish(cfg, st, dbWatermark, watermark, e); o.table == st.db.table && o.deleted == 0
  {
    NothingTombstoned(st.db.table);
  }
}
