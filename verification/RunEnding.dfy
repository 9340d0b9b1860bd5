/** Where a run starts, its checkpoints, and its end, row by row. */
module RunEnding {
  import opened Wrappers
  import opened SourceTable
  import opened SyncEngine
  import opened SyncRuns

  // ---------------------------------------------------------------- the start

  /** With checkpoints switched on the newest interrupted run is picked up and its cursor, if it has one, taken for the
      watermark; otherwise nothing is picked up. A run begins with nothing counted. */
  lemma {:induction false} BeginDecides(cfg: Config, db: Db)
    ensures var b, n := Begin(cfg, db), |db.interrupted|;
      && b.state.run == Progress(0, 0, 0, 0, 0, {}, None, None)
      && b.state.db == Db(db.table, db.dead, db.watermark, b.state.db.interrupted)
      && (cfg.checkpointEvery == 0 || n == 0 ==> b.state.db.interrupted == db.interrupted && b.watermark == db.watermark)
      && (cfg.checkpointEvery != 0 && n != 0 ==>
            && b.state.db.interrupted + [db.interrupted[n - 1]] == db.interrupted
            && b.watermark == (if db.interrupted[n - 1].Some? then db.interrupted[n - 1] else db.watermark))
  {
  }

  // ---------------------------------------------------------------- checkpoints

  /** Page `k`, counted from 1, has records, and its number is a multiple of the interval. */
  ghost predicate SavesAt(cfg: Config, pages: seq<seq<Item>>, k: int) {
    1 <= k <= |pages| && cfg.checkpointEvery > 0 && k % cfg.checkpointEvery == 0 && pages[k - 1] != []
  }

  /** The number of the last page that saves a checkpoint, 0 if none does. */
  ghost function LastSave(cfg: Config, pages: seq<seq<Item>>): (k: nat)
    ensures k <= |pages| && (k > 0 ==> SavesAt(cfg, pages, k))
    ensures forall j :: k < j <= |pages| ==> !SavesAt(cfg, pages, j)
  {
    if pages == [] then 0
    else
      var n := |pages|;
      SavesInPrefix(cfg, pages, n - 1);
      if SavesAt(cfg, pages, n) then n else LastSave(cfg, pages[..n - 1])
  }

  lemma {:induction false} SavesInPrefix(cfg: Config, pages: seq<seq<Item>>, n: nat)
    requires n <= |pages|
    ensures forall k :: 0 <= k <= n ==> (SavesAt(cfg, pages[..n], k) <==> SavesAt(cfg, pages, k))
  {
  }

  /** The checkpoint is the run's cursor after the last page that saved one; without such a page there is none. */
  lemma {:induction false} CheckpointIs(cfg: Config, db: Db, pages: seq<seq<Item>>)
    ensures var run, k := Pages(cfg, State(db, NO_PROGRESS), pages).run, LastSave(cfg, pages);
      && run.page == |pages|
      && run.checkpoint == if k == 0 then None else Some(RunScan(cfg, pages[..k]).watermark)
  {
    if pages != [] {
      var n := |pages| - 1;
      CheckpointIs(cfg, db, pages[..n]);
      PagesInClosedForm(cfg, db, pages);
      assert pages[..|pages|] == pages;
      var k := LastSave(cfg, pages);
      if k <= n { assert pages[..n][..k] == pages[..k]; }
    }
  }

  // ---------------------------------------------------------------- the end

  /** The listing has shrunk, against the last known count, by more than the percentage allowed. */
  ghost predicate Shrunk(cfg: Config, fetched: int, lastKnown: nat) {
    (lastKnown - fetched) as real * 100.0 > lastKnown as real * cfg.driftMaxShrinkPct
  }

  lemma {:induction false} DriftIff(cfg: Config, dbWatermark: Option<string>, fetched: int, lastKnown: nat)
    ensures Drifted(cfg, dbWatermark, fetched, lastKnown) <==>
      && cfg.driftProtection && dbWatermark.None? && 0 < lastKnown && cfg.driftMinRecords < lastKnown
      && Shrunk(cfg, fetched, lastKnown)
  {
    var k, p := lastKnown as real, cfg.driftMaxShrinkPct;
    assert 100.0 * (p / 100.0) == p;
    assert 100.0 * (k * (1.0 - p / 100.0)) == k * 100.0 - k * p by { Spread(k, p, p / 100.0); }
  }

  lemma {:induction false} Spread(k: real, p: real, q: real)
    requires 100.0 * q == p
    ensures 100.0 * (k * (1.0 - q)) == k * 100.0 - k * p
  {
    assert k * (1.0 - q) == k - k * q;
    assert 100.0 * (k * q) == k * (100.0 * q);
  }

  /** Live, not seen, within the limit of one half, and confirmed where deletions are. */
  ghost predicate Disappears(t: Table, seen: set<string>, gone: Option<set<string>>, id: string) {
    && id in t && !t[id].deleted && id !in seen
    && 2 * |LiveIds(t) - seen| <= |LiveIds(t)| && (gone.Some? ==> id in gone.value)
  }

  ghost function Disappearing(t: Table, seen: set<string>, gone: Option<set<string>>): set<string> {
    set id | id in t && Disappears(t, seen, gone, id)
  }

  lemma {:induction false} LiveMeans(t: Table)
    ensures forall id :: id in LiveIds(t) <==> id in t && !t[id].deleted
  {
  }

  lemma {:induction false} PassDecides(t: Table, seen: set<string>, gone: Option<set<string>>)
    ensures var t' := Tombstone(t, ToTombstone(t, seen, gone));
      && ToTombstone(t, seen, gone) == Disappearing(t, seen, gone) && t'.Keys == t.Keys
      && forall id :: id in t ==>
           t'[id] == (if Disappears(t, seen, gone, id) then Row(map[], t[id].hash, true) else t[id])
  {
    LiveMeans(t);
    assert ToTombstone(t, seen, gone) == Disappearing(t, seen, gone);
  }

  /** A run is aborted exactly on drift, and then, like one that resumed or saw nothing, touches no row. Any other
      empties and marks exactly the rows that disappear, keeping their hashes, and counts them. */
  lemma {:induction false} FinishDecides(cfg: Config, st: State, dbWatermark: Option<string>, watermark: Option<string>, e: Ending)
    ensures var o, t := Finish(cfg, st, dbWatermark, watermark, e), st.db.table;
      && (o.status.Aborted? <==>
            cfg.driftProtection && dbWatermark.None? && 0 < e.lastKnown && cfg.driftMinRecords < e.lastKnown
            && Shrunk(cfg, st.run.fetched, e.lastKnown))
      && (o.status.Aborted? || watermark.Some? || st.run.seen == {} ==> o.table == t && o.deleted == 0)
      && (o.status.Completed? && watermark.None? && st.run.seen != {} ==>
            && o.table.Keys == t.Keys && o.deleted == |Disappearing(t, st.run.seen, e.gone)|
            && forall id :: id in t ==>
                 o.table[id] == (if Disappears(t, st.run.seen, e.gone, id) then Row(map[], t[id].hash, true) else t[id]))
  {
    var t, seen := st.db.table, st.run.seen;
    DriftIff(cfg, dbWatermark, st.run.fetched, e.lastKnown);
    PassDecides(t, seen, e.gone);
  }
}
