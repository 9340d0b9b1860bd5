/** The page loop, the resume point, the drift guard and the tombstone pass of `_do_sync`
    in engine/src/inandout/ingestion/engine.py. */
module SyncEngine {
  import opened Wrappers
  import opened SourceTable
  import Ordering

  datatype PrimaryKey = Single(field: string) | Composite(fields: seq<string>)

  datatype Config = Config(
    key: PrimaryKey,
    cursorField: Option<string>,     // list.incremental.cursor_field
    batchSize: nat,                  // bulk_upsert_batch_size
    checkpointEvery: nat,            // checkpoint_every_n_pages, 0 = off
    driftProtection: bool,
    driftMaxShrinkPct: real,
    driftMinRecords: int,
    untilParam: bool,                // request_filter.until_param is set
    windowEnd: Option<string>)       // end of this run's cursor window; None without cursor_window or stored watermark

  /** A record after exclusions and field mappings, with the verdict of the quality rules on it. */
  datatype Item = Item(record: Record, violates: bool)

  datatype DeadLetter = DeadLetter(externalId: Option<string>, record: Record, errorClass: string)

  // ---------------------------------------------------------------- one record

  predicate HasField(r: Record, f: string) {
    f in r && r[f] != Null
  }

  function Text(r: Record, f: string): string
    requires HasField(r, f)
  {
    r[f].text
  }

  function JoinFields(r: Record, fields: seq<string>): string
    requires forall i :: 0 <= i < |fields| ==> HasField(r, fields[i])
  {
    if fields == [] then ""
    else if |fields| == 1 then Text(r, fields[0])
    else Text(r, fields[0]) + ":" + JoinFields(r, fields[1..])
  }

  /** `_extract_external_id`. */
  function ExtractId(r: Record, key: PrimaryKey): Option<string> {
    match key
    case Single(f) => if HasField(r, f) then Some(Text(r, f)) else None
    case Composite(fs) =>
      if forall i :: 0 <= i < |fs| ==> HasField(r, fs[i]) then Some(JoinFields(r, fs)) else None
  }

  predicate Rejected(cfg: Config, item: Item) {
    item.violates || ExtractId(item.record, cfg.key).None?
  }

  function Letter(cfg: Config, item: Item): DeadLetter {
    if item.violates then DeadLetter(ExtractId(item.record, cfg.key), item.record, "quality_violation")
    else DeadLetter(None, item.record, "data_error")
  }

  /** What a stretch of records adds up to: the writes and dead letters it causes, the ids met so far in
      the run, the repetitions skipped, and the greatest cursor text. */
  datatype Scan = Scan(accepted: seq<Accepted>, dead: seq<DeadLetter>, seen: set<string>, duplicates: nat,
                       watermark: Option<string>)

  /** Python's `candidate > new_watermark` on the cursor text. */
  function MaxCursor(cfg: Config, w: Option<string>, r: Record): Option<string> {
    if cfg.cursorField.Some? && HasField(r, cfg.cursorField.value) then
      var c := Text(r, cfg.cursorField.value);
      if w.None? || Ordering.StrLess(w.value, c) then Some(c) else w
    else w
  }

  function ScanItem(cfg: Config, s: Scan, item: Item): Scan {
    if Rejected(cfg, item) then s.(dead := s.dead + [Letter(cfg, item)])
    else
      var id := ExtractId(item.record, cfg.key).value;
      if id in s.seen then s.(duplicates := s.duplicates + 1)
      else s.(accepted := s.accepted + [Accepted(id, item.record)], seen := s.seen + {id},
              watermark := MaxCursor(cfg, s.watermark, item.record))
  }

  function ScanItems(cfg: Config, s: Scan, items: seq<Item>): Scan {
    if items == [] then s
    else ScanItem(cfg, ScanItems(cfg, s, items[..|items| - 1]), items[|items| - 1])
  }

  // ---------------------------------------------------------------- one page

  /** `interrupted` are the checkpoint cursors of crashed runs whose row still says 'running', oldest first. */
  datatype Db = Db(table: Table, dead: seq<DeadLetter>, watermark: Option<string>, interrupted: seq<Option<string>>)

  /** The run's own variables; `checkpoint` is the cursor in the checkpoint row of this run, if it has one. */
  datatype Progress = Progress(page: nat, fetched: int, inserted: nat, updated: nat, errored: nat,
                               seen: set<string>, watermark: Option<string>, checkpoint: Option<Option<string>>)

  datatype State = State(db: Db, run: Progress)

  const NO_PROGRESS := Progress(0, 0, 0, 0, 0, {}, None, None)

  /** Batches need a single-column key; other keys fall back to one upsert per buffered record. */
  predicate UsesBatches(cfg: Config) {
    cfg.batchSize > 1 && cfg.key.Single?
  }

  function WriteAll(cfg: Config, t: Table, accepted: seq<Accepted>): Written {
    if UsesBatches(cfg) then BulkAll(t, accepted, cfg.batchSize) else UpsertAll(t, accepted)
  }

  /** `if effective_watermark:` skips both None and the empty string. */
  function StoredWatermark(stored: Option<string>, w: Option<string>): Option<string> {
    if w.Some? && w.value != "" then w else stored
  }

  /** The end of the window, when there is one, takes the place of the greatest cursor. */
  function EffectiveWatermark(cfg: Config, w: Option<string>): Option<string> {
    if cfg.windowEnd.Some? then cfg.windowEnd else w
  }

  function PageScan(cfg: Config, run: Progress, page: seq<Item>): Scan {
    ScanItems(cfg, Scan([], [], run.seen, 0, run.watermark), page)
  }

  /** One page: rows, dead letters and watermark become durable together. */
  function CommitPage(cfg: Config, st: State, page: seq<Item>): State {
    var run := st.run.(page := st.run.page + 1, fetched := st.run.fetched + |page|);
    if page == [] then State(st.db, run)
    else
      var scan := PageScan(cfg, run, page);
      var w := WriteAll(cfg, st.db.table, scan.accepted);
      State(st.db.(table := w.table, dead := st.db.dead + scan.dead,
                   watermark := StoredWatermark(st.db.watermark, EffectiveWatermark(cfg, scan.watermark))),
            run.(fetched := run.fetched - scan.duplicates, errored := run.errored + |scan.dead|,
                 inserted := run.inserted + w.inserted, updated := run.updated + w.updated,
                 seen := scan.seen, watermark := scan.watermark))
  }

  /** The separate transaction after a page, skipped by the `continue` on empty pages. */
  function SaveCheckpoint(cfg: Config, st: State, page: seq<Item>): State {
    if page != [] && cfg.checkpointEvery > 0 && st.run.page % cfg.checkpointEvery == 0 then
      st.(run := st.run.(checkpoint := Some(st.run.watermark)))
    else st
  }

  function OnePage(cfg: Config, st: State, page: seq<Item>): State {
    SaveCheckpoint(cfg, CommitPage(cfg, st, page), page)
  }

  function Pages(cfg: Config, st: State, pages: seq<seq<Item>>): State {
    if pages == [] then st
    else OnePage(cfg, Pages(cfg, st, pages[..|pages| - 1]), pages[|pages| - 1])
  }

  // ---------------------------------------------------------------- start and end of a run

  datatype Begun = Begun(state: State, watermark: Option<string>)

  /** Picks the resume point: the newest interrupted checkpoint wins over the stored watermark unless its
      cursor is NULL, and its run is marked aborted. */
  function Begin(cfg: Config, db: Db): Begun {
    if cfg.checkpointEvery > 0 && db.interrupted != [] then
      var n := |db.interrupted| - 1;
      var cursor := db.interrupted[n];
      Begun(State(db.(interrupted := db.interrupted[..n]), NO_PROGRESS), if cursor.Some? then cursor else db.watermark)
    else
      Begun(State(db, NO_PROGRESS), db.watermark)
  }

  /** `lastKnown` is the fetched count of the last completed run, `gone` the ids whose re-fetch says 404
      when deletions are verified. */
  datatype Ending = Ending(lastKnown: nat, gone: Option<set<string>>)

  datatype Status = Completed | Aborted

  datatype Outcome = Outcome(status: Status, table: Table, deleted: nat)

  predicate Drifted(cfg: Config, dbWatermark: Option<string>, fetched: int, lastKnown: nat) {
    && cfg.driftProtection && dbWatermark.None? && lastKnown > 0
    && (fetched as real) < (lastKnown as real) * (1.0 - cfg.driftMaxShrinkPct / 100.0)
    && lastKnown > cfg.driftMinRecords
  }

  /** The live ids a full listing did not show, unless they are more than half of all live ids. */
  function ToTombstone(t: Table, seen: set<string>, gone: Option<set<string>>): set<string> {
    var live := LiveIds(t);
    var missing := live - seen;
    if 2 * |missing| > |live| then {}
    else if gone.Some? then missing * gone.value
    else missing
  }

  /** The tombstone keeps the hash and empties the payload. */
  function Tombstone(t: Table, ids: set<string>): Table {
    map id | id in t :: if id in ids && !t[id].deleted then t[id].(data := map[], deleted := true) else t[id]
  }

  /** `dbWatermark` is the watermark read before the run, `watermark` the one it actually started from. */
  function Finish(cfg: Config, st: State, dbWatermark: Option<string>, watermark: Option<string>, e: Ending): Outcome {
    if Drifted(cfg, dbWatermark, st.run.fetched, e.lastKnown) then
      Outcome(Aborted, st.db.table, 0)
    else if watermark.None? && st.run.seen != {} then
      var ids := ToTombstone(st.db.table, st.run.seen, e.gone);
      Outcome(Completed, Tombstone(st.db.table, ids), |ids|)
    else
      Outcome(Completed, st.db.table, 0)
  }

  // ---------------------------------------------------------------- the run as code

  /** The writes of a page when `accepted` have been handed over and the page is not finished. */
  ghost function HandedOver(cfg: Config, t: Table, accepted: seq<Accepted>): Buffered {
    if UsesBatches(cfg) then FeedAll(t, accepted, cfg.batchSize) else Buffered(UpsertAll(t, accepted), [])
  }

  lemma {:induction false} HandOverOne(cfg: Config, t: Table, accepted: seq<Accepted>, a: Accepted)
    ensures var b := HandedOver(cfg, t, accepted);
      HandedOver(cfg, t, accepted + [a]) ==
      if UsesBatches(cfg) then Feed(b, a, cfg.batchSize)
      else Buffered(Then(b.done, Upsert(b.done.table, a)), [])
  {
    assert (accepted + [a])[..|accepted|] == accepted;
  }

  class SyncRun {
    const cfg: Config
    var db: Db
    var page: nat
    var fetched: int
    var inserted: nat
    var updated: nat
    var errored: nat
    var seen: set<string>
    var newWatermark: Option<string>
    var checkpoint: Option<Option<string>>
    var buffer: seq<Accepted>
    var watermark: Option<string>

    ghost function Now(): State
      reads this
    {
      State(db, Progress(page, fetched, inserted, updated, errored, seen, newWatermark, checkpoint))
    }

    constructor (cfg: Config, db: Db)
      ensures this.cfg == cfg && Begun(Now(), watermark) == Begin(cfg, db) && buffer == []
    {
      this.cfg := cfg;
      this.db := db;
      page, fetched, inserted, updated, errored := 0, 0, 0, 0, 0;
      seen, newWatermark, checkpoint, buffer := {}, None, None, [];
      watermark := db.watermark;
      if cfg.checkpointEvery > 0 && db.interrupted != [] {
        var n := |db.interrupted| - 1;
        this.db := db.(interrupted := db.interrupted[..n]);
        if db.interrupted[n].Some? { watermark := db.interrupted[n]; }
      }
    }

    /** How far the writes of this page have come when `accepted` have been handed over. */
    ghost predicate Wrote(t0: Table, inserted0: nat, updated0: nat, accepted: seq<Accepted>)
      reads this
    {
      && inserted >= inserted0 && updated >= updated0
      && Buffered(Written(db.table, inserted - inserted0, updated - updated0), buffer) == HandedOver(cfg, t0, accepted)
    }

    /** Only rows, insert/update counts and the buffer differ. */
    twostate predicate OnlyWrites()
      reads this
    {
      && Now() == old(Now()).(db := old(db).(table := db.table),
                              run := old(Now().run).(inserted := inserted, updated := updated))
      && watermark == old(watermark)
    }

    method FlushBuffer()
      modifies this
      ensures OnlyWrites() && buffer == []
      ensures var w := BulkUpsert(old(db.table), old(buffer));
        db.table == w.table && inserted == old(inserted) + w.inserted && updated == old(updated) + w.updated
    {
      var table, ins, upd := BulkUpsertRecords(db.table, buffer);
      db := db.(table := table);
      inserted, updated := inserted + ins, updated + upd;
      buffer := [];
    }

    method UpsertOne(a: Accepted)
      modifies this
      ensures OnlyWrites() && buffer == old(buffer)
      ensures var w := Upsert(old(db.table), a);
        db.table == w.table && inserted == old(inserted) + w.inserted && updated == old(updated) + w.updated
    {
      var table, ins, upd, resurrected := UpsertRecord(db.table, a);
      db := db.(table := table);
      inserted, updated := inserted + ins, updated + upd;
    }

    method WriteRecord(a: Accepted, ghost t0: Table, ghost inserted0: nat, ghost updated0: nat, ghost accepted: seq<Accepted>)
      requires Wrote(t0, inserted0, updated0, accepted)
      modifies this
      ensures Wrote(t0, inserted0, updated0, accepted + [a]) && OnlyWrites()
    {
      HandOverOne(cfg, t0, accepted, a);
      if UsesBatches(cfg) {
        buffer := buffer + [a];
        if |buffer| >= cfg.batchSize {
          FlushBuffer();
        }
      } else {
        UpsertOne(a);
      }
    }

    /** The flush at the end of a page. */
    method WriteRest(ghost t0: Table, ghost inserted0: nat, ghost updated0: nat, ghost accepted: seq<Accepted>)
      requires Wrote(t0, inserted0, updated0, accepted)
      modifies this
      ensures buffer == [] && OnlyWrites() && inserted >= inserted0 && updated >= updated0
      ensures Written(db.table, inserted - inserted0, updated - updated0) == WriteAll(cfg, t0, accepted)
    {
      if UsesBatches(cfg) && buffer != [] {
        FlushBuffer();
      }
    }

    /** Inside the transaction of a page that began in `start`, when `s` has been scanned. */
    ghost predicate MidPage(start: State, s: Scan)
      reads this
    {
      && Wrote(start.db.table, start.run.inserted, start.run.updated, s.accepted)
      && Now() == Scanned(start, s, db.table, inserted, updated)
    }

    method ProcessItem(item: Item, ghost start: State, ghost s: Scan)
      requires MidPage(start, s)
      modifies this
      ensures MidPage(start, ScanItem(cfg, s, item)) && watermark == old(watermark)
    {
      var id := ExtractId(item.record, cfg.key);
      if item.violates {
        errored := errored + 1;
        db := db.(dead := db.dead + [DeadLetter(id, item.record, "quality_violation")]);
      } else if id.None? {
        errored := errored + 1;
        db := db.(dead := db.dead + [DeadLetter(None, item.record, "data_error")]);
      } else if id.value in seen {
        fetched := fetched - 1;
      } else {
        AcceptRecord(Accepted(id.value, item.record), start, s);
      }
    }

    /** A record met for the first time in this run. */
    method AcceptRecord(a: Accepted, ghost start: State, ghost s: Scan)
      requires MidPage(start, s)
      modifies this
      ensures watermark == old(watermark)
      ensures MidPage(start, s.(accepted := s.accepted + [a], seen := s.seen + {a.id},
                                watermark := MaxCursor(cfg, s.watermark, a.record)))
    {
      WriteRecord(a, start.db.table, start.run.inserted, start.run.updated, s.accepted);
      assert MidPage(start, s.(accepted := s.accepted + [a]));
      seen := seen + {a.id};
      newWatermark := MaxCursor(cfg, newWatermark, a.record);
    }

    /** One iteration of the page loop, up to and including the commit. */
    method ProcessPage(items: seq<Item>)
      requires buffer == []
      modifies this
      ensures Now() == CommitPage(cfg, old(Now()), items) && buffer == [] && watermark == old(watermark)
    {
      ghost var before := Now();
      page := page + 1;
      fetched := fetched + |items|;
      if items == [] { return; }
      CommitIsCommitted(cfg, before, items);
      ProcessRecords(items);
    }

    /** The records of a page that has some, and its commit. */
    method ProcessRecords(items: seq<Item>)
      requires buffer == []
      modifies this
      ensures Now() == CommittedPage(cfg, old(Now()), items) && buffer == [] && watermark == old(watermark)
    {
      ghost var start := Now();
      ProcessItems(items);
      FinishPage(start, PageScan(cfg, start.run, items));
    }

    /** The last flush and the watermark, before the transaction ends. */
    method FinishPage(ghost start: State, ghost s: Scan)
      requires MidPage(start, s)
      modifies this
      ensures Now() == Committed(cfg, start, s, WriteAll(cfg, start.db.table, s.accepted))
      ensures buffer == [] && watermark == old(watermark)
    {
      WriteRest(start.db.table, start.run.inserted, start.run.updated, s.accepted);
      StoreWatermark();
    }

    method StoreWatermark()
      modifies this`db
      ensures Now() == old(Now()).(db := old(db).(watermark :=
        StoredWatermark(old(db.watermark), EffectiveWatermark(cfg, newWatermark))))
    {
      var effective := if cfg.windowEnd.Some? then cfg.windowEnd else newWatermark;
      if effective.Some? && effective.value != "" {
        db := db.(watermark := effective);
      }
    }

    /** The loop over the records of a page. */
    method ProcessItems(items: seq<Item>)
      requires buffer == []
      modifies this
      ensures MidPage(old(Now()), PageScan(cfg, old(Now()).run, items)) && watermark == old(watermark)
    {
      ghost var start := Now();
      ghost var scan0 := Scan([], [], seen, 0, newWatermark);
      var i := 0;
      while i < |items|
        invariant 0 <= i <= |items| && watermark == old(watermark)
        invariant MidPage(start, ScanItems(cfg, scan0, items[..i]))
      {
        assert items[..i + 1][..i] == items[..i];
        ProcessItem(items[i], start, ScanItems(cfg, scan0, items[..i]));
        i := i + 1;
      }
      assert items[..i] == items;
    }

    method Checkpoint(items: seq<Item>)
      modifies this`checkpoint
      ensures Now() == SaveCheckpoint(cfg, old(Now()), items)
    {
      if items != [] && cfg.checkpointEvery > 0 && page % cfg.checkpointEvery == 0 {
        checkpoint := Some(newWatermark);
      }
    }

    /** The whole page loop. A crash leaves the database as it is after some number of turns. */
    method ProcessPages(pages: seq<seq<Item>>)
      requires buffer == []
      modifies this
      ensures Now() == Pages(cfg, old(Now()), pages) && watermark == old(watermark)
    {
      var k := 0;
      while k < |pages|
        invariant 0 <= k <= |pages| && buffer == [] && watermark == old(watermark)
        invariant Now() == Pages(cfg, old(Now()), pages[..k])
      {
        assert pages[..k + 1][..k] == pages[..k];
        ProcessPage(pages[k]);
        Checkpoint(pages[k]);
        k := k + 1;
      }
      assert pages[..k] == pages;
    }

    /** The drift guard and the tombstone pass. */
    method Complete(dbWatermark: Option<string>, e: Ending) returns (status: Status, deleted: nat)
      modifies this`db
      ensures Outcome(status, db.table, deleted) == Finish(cfg, old(Now()), dbWatermark, watermark, e)
      ensures db == old(db).(table := db.table)
    {
      if Drifted(cfg, dbWatermark, fetched, e.lastKnown) {
        return Aborted, 0;
      }
      if watermark.None? && seen != {} {
        deleted := TombstoneMissing(e.gone);
        return Completed, deleted;
      }
      return Completed, 0;
    }

    /** `_tombstone_missing`. */
    method TombstoneMissing(gone: Option<set<string>>) returns (deleted: nat)
      modifies this`db
      ensures var ids := ToTombstone(old(db.table), seen, gone);
        db == old(db).(table := Tombstone(old(db.table), ids)) && deleted == |ids|
    {
      var live := LiveIds(db.table);
      NothingTombstoned(db.table);
      if |live| == 0 { return 0; }
      var missing := live - seen;
      if missing == {} { return 0; }
      if 2 * |missing| > |live| { return 0; }
      var confirmed := if gone.Some? then missing * gone.value else missing;
      if confirmed == {} { return 0; }
      db := db.(table := Tombstone(db.table, confirmed));
      return |confirmed|;
    }
  }

  lemma {:induction false} NothingTombstoned(t: Table)
    ensures Tombstone(t, {}) == t
  {
  }

  /** The state after part of a page has been scanned, with these rows and write counts. */
  ghost function Scanned(start: State, s: Scan, table: Table, inserted: nat, updated: nat): State {
    State(start.db.(dead := start.db.dead + s.dead, table := table),
          start.run.(fetched := start.run.fetched - s.duplicates, errored := start.run.errored + |s.dead|,
                     seen := s.seen, watermark := s.watermark, inserted := inserted, updated := updated))
  }

  /** The state when the page's writes are complete and the watermark is stored. */
  ghost function Committed(cfg: Config, start: State, s: Scan, w: Written): State {
    var st := Scanned(start, s, w.table, start.run.inserted + w.inserted, start.run.updated + w.updated);
    st.(db := st.db.(watermark := StoredWatermark(start.db.watermark, EffectiveWatermark(cfg, s.watermark))))
  }

  ghost function CommittedPage(cfg: Config, start: State, page: seq<Item>): State {
    var s := PageScan(cfg, start.run, page);
    Committed(cfg, start, s, WriteAll(cfg, start.db.table, s.accepted))
  }

  lemma {:induction false} CommitIsCommitted(cfg: Config, st: State, page: seq<Item>)
    requires page != []
    ensures CommitPage(cfg, st, page) ==
      CommittedPage(cfg, st.(run := st.run.(page := st.run.page + 1, fetched := st.run.fetched + |page|)), page)
  {
  }
}
