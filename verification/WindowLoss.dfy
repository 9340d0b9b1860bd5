/** When records are lost, and for good: the resume point has passed over them. */
module WindowLoss {
  import opened Wrappers
  import opened SourceTable
  import opened SyncEngine
  import opened SyncRuns
  import opened CrashResume
  import Ordering

  /** The next attempt, unless bounded by a window of its own, asks for every record that is not settled if and only
      if this one was a safe one. */
  lemma {:induction false} NextAttemptAsksIff(cfg: Config, leq: CursorOrder, source: seq<Item>, db: Db, a: Attempt, next: Attempt)
    requires SortedSource(cfg, leq, source) && Faithful(cfg, leq, source, db, a) && OneMark(cfg, db)
    requires Resumable(cfg, leq, source, db, false) && next.windowEnd.None?
    ensures (forall i :: 0 <= i < |source| ==>
        Settled(cfg, AfterAttempt(cfg, db, a), source[i], false) || source[i] in Asked(cfg, leq, source, AfterAttempt(cfg, db, a), next))
      <==> SafeAttempt(cfg, leq, source, db, a, false)
  {
    AttemptKeepsResumableIff(cfg, leq, source, db, a, false);
    forall i | 0 <= i < |source|
      ensures source[i] in Asked(cfg, leq, source, AfterAttempt(cfg, db, a), next) <==>
        Listed(cfg, leq, ResumePoint(cfg, AfterAttempt(cfg, db, a)), source[i])
    {
      AskedIff(cfg, leq, source, AfterAttempt(cfg, db, a), next, i);
    }
  }

  /** An attempt asks for exactly the records at or beyond its resume point and not beyond its window. */
  lemma {:induction false} AskedIff(cfg: Config, leq: CursorOrder, source: seq<Item>, db: Db, a: Attempt, i: nat)
    requires SortedSource(cfg, leq, source) && i < |source|
    ensures source[i] in Asked(cfg, leq, source, db, a) <==>
      Listed(cfg, leq, ResumePoint(cfg, db), source[i]) && InWindow(RunConfig(cfg, a), leq, source[i])
  {
    var run := RunConfig(cfg, a);
    ListingElements(run, leq, source, ResumePoint(cfg, db));
    assert CarriesCursor(cfg, source[i]) && CarriesCursor(run, source[i]);
    assert Cursor(run, source[i]) == Cursor(cfg, source[i]);
  }

  // ---------------------------------------------------------------- what exactly is settled

  lemma {:induction false} FinishKeepsKeys(cfg: Config, db: Db, a: Attempt)
    ensures AfterAttempt(cfg, db, a).table.Keys == AfterPages(RunConfig(cfg, a), db, a.pages).db.table.Keys
  {
  }

  /** Any attempt settles exactly what it dead-lettered or accepted; nothing else becomes or ceases to be settled. */
  lemma {:induction false} SettledAfterIff(cfg: Config, db: Db, a: Attempt, x: Item)
    ensures Settled(cfg, AfterAttempt(cfg, db, a), x, false) <==>
      Settled(cfg, db, x, false) || SettledBy(RunConfig(cfg, a), RunScan(RunConfig(cfg, a), a.pages), x)
  {
    var run, begun := RunConfig(cfg, a), Begin(cfg, db).state.db;
    assert Begin(run, db) == Begin(cfg, db);
    PagesInClosedForm(run, begun, a.pages);
    PagesKeys(run, begun, a.pages);
    FinishKeepsKeys(cfg, db, a);
  }

  /** No two records of the source share an id or a dead letter. */
  ghost predicate OwnIdentity(cfg: Config, source: seq<Item>) {
    forall x, y :: x in source && y in source && x != y ==>
      !SameId(cfg, x, y) && !(Rejected(cfg, x) && Rejected(cfg, y) && Letter(cfg, x) == Letter(cfg, y))
  }

  lemma {:induction false} DeadComesFrom(cfg: Config, items: seq<Item>, l: DeadLetter)
    requires l in ScanItems(cfg, NOTHING, items).dead
    ensures exists y :: y in items && Rejected(cfg, y) && l == Letter(cfg, y)
  {
    if items != [] {
      var n := |items| - 1;
      if l in ScanItems(cfg, NOTHING, items[..n]).dead {
        DeadComesFrom(cfg, items[..n], l);
        var y :| y in items[..n] && Rejected(cfg, y) && l == Letter(cfg, y);
        assert y in items;
      } else {
        assert items[n] in items && Rejected(cfg, items[n]);
      }
    }
  }

  /** When records have identities of their own, a scan settles those it came by and no other. */
  lemma {:induction false} ScanSettlesOwn(cfg: Config, source: seq<Item>, items: seq<Item>, x: Item)
    requires OwnIdentity(cfg, source) && x in source && forall y :: y in items ==> y in source
    ensures SettledBy(cfg, ScanItems(cfg, NOTHING, items), x) <==> x in items
  {
    var scan := ScanItems(cfg, NOTHING, items);
    if x in items {
      var k :| 0 <= k < |items| && items[k] == x;
      ScanSettles(cfg, items, k);
    }
    if SettledBy(cfg, scan, x) {
      if Rejected(cfg, x) {
        DeadComesFrom(cfg, items, Letter(cfg, x));
      } else {
        var i :| 0 <= i < |scan.accepted| && scan.accepted[i].id == ExtractId(x.record, cfg.key).value;
        AcceptedComesFrom(cfg, items, i);
        var k :| 0 <= k < |items| && !Rejected(cfg, items[k]) &&
          scan.accepted[i] == Accepted(ExtractId(items[k].record, cfg.key).value, items[k].record);
        assert SameId(cfg, items[k], x) && items[k] in items;
      }
    }
  }

  lemma {:induction false} AttemptSettlesOwn(cfg: Config, leq: CursorOrder, source: seq<Item>, db: Db, a: Attempt, i: nat)
    requires SortedSource(cfg, leq, source) && Faithful(cfg, leq, source, db, a) && OwnIdentity(cfg, source) && i < |source|
    ensures Settled(cfg, AfterAttempt(cfg, db, a), source[i], false) <==>
      Settled(cfg, db, source[i], false) || source[i] in Flatten(a.pages)
  {
    var run, items := RunConfig(cfg, a), Flatten(a.pages);
    ListingElements(run, leq, source, ResumePoint(cfg, db));
    forall y | y in items ensures y in source {
      assert y in Asked(cfg, leq, source, db, a);
    }
    assert OwnIdentity(run, source) by {
      forall x, y | x in source && y in source && x != y
        ensures !SameId(run, x, y) && !(Rejected(run, x) && Rejected(run, y) && Letter(run, x) == Letter(run, y))
      {
        assert !SameId(cfg, x, y) && !(Rejected(cfg, x) && Rejected(cfg, y) && Letter(cfg, x) == Letter(cfg, y));
      }
    }
    SettledAfterIff(cfg, db, a, source[i]);
    ScanSettlesOwn(run, source, items, source[i]);
  }

  /** So a completed attempt leaves every record of its window settled if and only if the point it started from was at
      or before those that were not: this is what it takes, besides what is enough. */
  lemma {:induction false} CompletedSettlesAllIff(cfg: Config, leq: CursorOrder, source: seq<Item>, db: Db, a: Attempt)
    requires SortedSource(cfg, leq, source) && Faithful(cfg, leq, source, db, a) && OwnIdentity(cfg, source)
    requires a.how.RanToEnd?
    ensures (forall i :: 0 <= i < |source| && InWindow(RunConfig(cfg, a), leq, source[i]) ==>
        Settled(cfg, AfterAttempt(cfg, db, a), source[i], false))
      <==> forall i :: 0 <= i < |source| && InWindow(RunConfig(cfg, a), leq, source[i]) ==>
        Settled(cfg, db, source[i], false) || Listed(cfg, leq, ResumePoint(cfg, db), source[i])
  {
    forall i | 0 <= i < |source| && InWindow(RunConfig(cfg, a), leq, source[i])
      ensures Settled(cfg, AfterAttempt(cfg, db, a), source[i], false) <==>
        Settled(cfg, db, source[i], false) || Listed(cfg, leq, ResumePoint(cfg, db), source[i])
    {
      AttemptSettlesOwn(cfg, leq, source, db, a, i);
      AskedIff(cfg, leq, source, db, a, i);
    }
  }

  // ---------------------------------------------------------------- passed over

  ghost predicate Beyond(cfg: Config, leq: CursorOrder, w: Option<string>, x: Item) {
    w.Some? && CarriesCursor(cfg, x) && !leq(w.value, Cursor(cfg, x))
  }

  /** The stored watermark and the point to resume from are both beyond the record. */
  ghost predicate PassedOver(cfg: Config, leq: CursorOrder, db: Db, x: Item) {
    Beyond(cfg, leq, db.watermark, x) && Beyond(cfg, leq, ResumePoint(cfg, db), x)
  }

  /** A record passed over is not asked for; and it stays passed over if and only if the attempt does not store the end
      of a window that is not beyond it. */
  lemma {:induction false} PassedOverIff(cfg: Config, leq: CursorOrder, source: seq<Item>, db: Db, a: Attempt, x: Item)
    requires SortedSource(cfg, leq, source) && Faithful(cfg, leq, source, db, a) && OneMark(cfg, db)
    requires TotalOrder(leq) && PassedOver(cfg, leq, db, x)
    ensures x !in Asked(cfg, leq, source, db, a)
    ensures PassedOver(cfg, leq, AfterAttempt(cfg, db, a), x) <==> (StoresWindow(a) ==> Beyond(cfg, leq, a.windowEnd, x))
  {
    var db' := AfterAttempt(cfg, db, a);
    AttemptWatermark(cfg, db, a);
    NextResumePoint(cfg, db, a);
    LeftBehindCursors(cfg, db, a);
    assert CarriesCursor(RunConfig(cfg, a), x) && Cursor(RunConfig(cfg, a), x) == Cursor(cfg, x);
    ListingElements(RunConfig(cfg, a), leq, source, ResumePoint(cfg, db));
    if LeavesCursor(cfg, db, a) { CommittedIsBeyond(cfg, leq, source, db, a, LeftBehind(cfg, db, a)[0], x); }
    if !StoresWindow(a) && StoresCursor(cfg, a) { CommittedIsBeyond(cfg, leq, source, db, a, db'.watermark, x); }
  }

  /** Cursors committed lie at or beyond the resume point. */
  lemma {:induction false} CommittedIsBeyond(cfg: Config, leq: CursorOrder, source: seq<Item>, db: Db, a: Attempt, w: Option<string>,
                                             x: Item)
    requires SortedSource(cfg, leq, source) && Faithful(cfg, leq, source, db, a) && TotalOrder(leq)
    requires Beyond(cfg, leq, ResumePoint(cfg, db), x) && w.Some? && CursorOf(cfg, Flatten(a.pages), w)
    ensures Beyond(cfg, leq, w, x)
  {
    var run, items := RunConfig(cfg, a), Flatten(a.pages);
    ListingElements(run, leq, source, ResumePoint(cfg, db));
    var k :| 0 <= k < |items| && CarriesCursor(cfg, items[k]) && w.value == Cursor(cfg, items[k]);
    assert items[k] == Asked(cfg, leq, source, db, a)[k];
    assert Listed(run, leq, ResumePoint(cfg, db), items[k]) && Cursor(run, items[k]) == Cursor(cfg, items[k]);
    assert leq(ResumePoint(cfg, db).value, w.value);
  }

  ghost predicate Lost(cfg: Config, leq: CursorOrder, db: Db, x: Item) {
    PassedOver(cfg, leq, db, x) && !Settled(cfg, db, x, false)
  }

  /** The attempt stores no end of a window, or one beyond the record. */
  ghost predicate WindowBeyond(cfg: Config, leq: CursorOrder, a: Attempt, x: Item) {
    StoresWindow(a) ==> Beyond(cfg, leq, a.windowEnd, x)
  }

  lemma {:induction false} StaysLost(cfg: Config, leq: CursorOrder, source: seq<Item>, db: Db, a: Attempt, i: nat)
    requires SortedSource(cfg, leq, source) && Faithful(cfg, leq, source, db, a) && OneMark(cfg, db)
    requires TotalOrder(leq) && OwnIdentity(cfg, source) && i < |source|
    requires Lost(cfg, leq, db, source[i]) && WindowBeyond(cfg, leq, a, source[i])
    ensures source[i] !in Asked(cfg, leq, source, db, a) && Lost(cfg, leq, AfterAttempt(cfg, db, a), source[i])
  {
    PassedOverIff(cfg, leq, source, db, a, source[i]);
    AttemptSettlesOwn(cfg, leq, source, db, a, i);
  }

  lemma {:induction false} LostNext(cfg: Config, leq: CursorOrder, source: seq<Item>, dbs: seq<Db>, attempts: seq<Attempt>,
                                    m: nat, i: nat)
    requires History(cfg, leq, source, dbs, attempts) && m < |attempts| && i < |source|
    requires TotalOrder(leq) && OwnIdentity(cfg, source)
    requires Lost(cfg, leq, dbs[m], source[i]) && WindowBeyond(cfg, leq, attempts[m], source[i])
    ensures source[i] !in Asked(cfg, leq, source, dbs[m], attempts[m]) && Lost(cfg, leq, dbs[m + 1], source[i])
  {
    HistoryMarks(cfg, leq, source, dbs, attempts, m);
    StaysLost(cfg, leq, source, dbs[m], attempts[m], i);
  }

  ghost predicate NeverAsked(cfg: Config, leq: CursorOrder, source: seq<Item>, dbs: seq<Db>, attempts: seq<Attempt>,
                             k: nat, n: nat, i: nat)
    requires SortedSource(cfg, leq, source) && i < |source| && n <= |attempts| && n <= |dbs|
  {
    forall j :: k <= j < n ==> source[i] !in Asked(cfg, leq, source, dbs[j], attempts[j])
  }

  lemma {:induction false} NeverAskedNext(cfg: Config, leq: CursorOrder, source: seq<Item>, dbs: seq<Db>, attempts: seq<Attempt>,
                                          k: nat, n: nat, i: nat)
    requires SortedSource(cfg, leq, source) && i < |source| && n < |attempts| && n < |dbs|
    requires NeverAsked(cfg, leq, source, dbs, attempts, k, n, i)
    requires source[i] !in Asked(cfg, leq, source, dbs[n], attempts[n])
    ensures NeverAsked(cfg, leq, source, dbs, attempts, k, n + 1, i)
  {
  }

  /** Over a history: a record that is passed over and not settled is never asked for again and never settled, with or
      without checkpoints, as long as no window is stored that is not beyond it. */
  lemma {:induction false} PassedOverForGood(cfg: Config, leq: CursorOrder, source: seq<Item>, dbs: seq<Db>, attempts: seq<Attempt>,
                                             k: nat, n: nat, i: nat)
    requires History(cfg, leq, source, dbs, attempts) && TotalOrder(leq) && OwnIdentity(cfg, source)
    requires k <= n < |dbs| && i < |source| && Lost(cfg, leq, dbs[k], source[i])
    requires forall j :: k <= j < n ==> WindowBeyond(cfg, leq, attempts[j], source[i])
    ensures Lost(cfg, leq, dbs[n], source[i]) && NeverAsked(cfg, leq, source, dbs, attempts, k, n, i)
    decreases n
  {
    if k < n {
      var m := n - 1;
      PassedOverForGood(cfg, leq, source, dbs, attempts, k, m, i);
      assert WindowBeyond(cfg, leq, attempts[m], source[i]);
      LostNext(cfg, leq, source, dbs, attempts, m, i);
      NeverAskedNext(cfg, leq, source, dbs, attempts, k, m, i);
    }
  }

  // ---------------------------------------------------------------- a history that loses a record

  lemma {:induction false} OneRecordScan(cfg: Config, x: Item)
    requires !Rejected(cfg, x)
    ensures var a := Accepted(ExtractId(x.record, cfg.key).value, x.record);
      ScanItems(cfg, NOTHING, [x]) == Scan([a], [], {a.id}, 0, MaxCursor(cfg, None, x.record))
  {
    assert ScanItems(cfg, NOTHING, [x][..0]) == NOTHING;
    assert ScanItems(cfg, NOTHING, [x]) == ScanItem(cfg, NOTHING, x);
  }

  lemma {:induction false} OneUpsert(t: Table, a: Accepted)
    ensures UpsertAll(t, [a]).table == Upsert(t, a).table
  {
    assert UpsertAll(t, [a][..0]).table == t;
  }

  /** The database after one page of one record, on the single-record path, with a checkpoint after every page or
      without checkpoints. */
  lemma {:induction false} AfterOneRecord(cfg: Config, db: Db, x: Item)
    requires !UsesBatches(cfg) && cfg.checkpointEvery <= 1 && !Rejected(cfg, x)
    requires db.interrupted == []
    ensures var st, w := AfterPages(cfg, db, [[x]]), MaxCursor(cfg, None, x.record);
      && st.run.checkpoint == (if cfg.checkpointEvery == 1 then Some(w) else None)
      && st.db == db.(table := Upsert(db.table, Accepted(ExtractId(x.record, cfg.key).value, x.record)).table,
                      watermark := StoredWatermark(db.watermark, EffectiveWatermark(cfg, w)))
  {
    var begun := Begin(cfg, db).state;
    OneRecordScan(cfg, x);
    OneUpsert(db.table, Accepted(ExtractId(x.record, cfg.key).value, x.record));
    assert Pages(cfg, begun, [[x]][..0]) == begun;
    assert Pages(cfg, begun, [[x]]) == OnePage(cfg, begun, [x]);
    assert db.dead + [] == db.dead;
  }

  /** A checkpoint after every `every` pages, or none if that is 0. */
  function Losing(every: nat): Config {
    Config(Single("id"), Some("at"), 1, every, false, 0.0, 0, true, None)
  }

  function TextItem(id: string, at: string): Item {
    Item(map["id" := Scalar(0, id), "at" := Scalar(0, at)], false)
  }

  const LOSING_SOURCE := [TextItem("a", "1"), TextItem("b", "2")]

  /** The attempts, with a window of 2: one without a window fails after the first record; one with a window gets no
      further, and is killed when it has stored the end of its window; one is killed before it has committed anything;
      and the last finds nothing to do. */
  function LosingAttempts(): seq<Attempt> {
    var first := [[TextItem("a", "1")]];
    [Attempt(first, Failed, None), Attempt(first, CrashedAfterCheckpoint, Some("3.0")),
     Attempt([], CrashedBeforeCheckpoint, Some("5.0")), Attempt([], RanToEnd(Ending(0, None)), Some("5.0"))]
  }

  function LosingDbs(every: nat): seq<Db> {
    var t: Table := map["a" := Row(TextItem("a", "1").record, RawHash(TextItem("a", "1").record), false)];
    [Db(map[], [], None, []), Db(t, [], Some("1"), []), Db(t, [], Some("3.0"), if every == 1 then [Some("1")] else []),
     Db(t, [], Some("3.0"), []), Db(t, [], Some("3.0"), [])]
  }

  lemma {:induction false} TextOrder()
    ensures TotalOrder(Ordering.StrLeq)
    ensures Ordering.StrLeq("1", "2") && Ordering.StrLeq("1", "3.0") && Ordering.StrLeq("2", "3.0")
    ensures !Ordering.StrLeq("3.0", "1") && !Ordering.StrLeq("3.0", "2") && Ordering.StrLeq("2", "5.0")
  {
    forall a, b ensures Ordering.StrLeq(a, b) || Ordering.StrLeq(b, a) { Ordering.StrLessTotal(a, b); }
    forall a, b, c | Ordering.StrLeq(a, b) && Ordering.StrLeq(b, c) ensures Ordering.StrLeq(a, c) {
      if a != b && b != c { Ordering.StrLessTransitive(a, b, c); }
    }
  }

  lemma {:induction false} LosingSorted(every: nat)
    ensures SortedSource(Losing(every), Ordering.StrLeq, LOSING_SOURCE)
  {
    TextOrder();
  }

  /** The first two attempts ask for both records, the last for none. */
  lemma {:induction false} LosingListing(every: nat, k: nat)
    requires every <= 1 && k < 4
    ensures SortedSource(Losing(every), Ordering.StrLeq, LOSING_SOURCE)
    ensures var asked := Asked(Losing(every), Ordering.StrLeq, LOSING_SOURCE, LosingDbs(every)[k], LosingAttempts()[k]);
      (k < 2 ==> asked == LOSING_SOURCE) && (k == 3 ==> asked == [])
  {
    LosingSorted(every);
    TextOrder();
    TwoListed(RunConfig(Losing(every), LosingAttempts()[k]), Ordering.StrLeq, LOSING_SOURCE[0], LOSING_SOURCE[1],
              Begin(Losing(every), LosingDbs(every)[k]).watermark);
  }

  lemma {:induction false} TwoListed(cfg: Config, leq: CursorOrder, x: Item, y: Item, from: Option<string>)
    requires CarriesCursor(cfg, x) && CarriesCursor(cfg, y)
    ensures Listing(cfg, leq, [x, y], from) ==
      (if Listed(cfg, leq, from, x) && InWindow(cfg, leq, x) then [x] else []) +
      (if Listed(cfg, leq, from, y) && InWindow(cfg, leq, y) then [y] else [])
  {
    assert [x, y][1..] == [y] && [y][1..] == [];
    assert Listing(cfg, leq, [y][1..], from) == [];
    assert Listing(cfg, leq, [y], from) == if Listed(cfg, leq, from, y) && InWindow(cfg, leq, y) then [y] else [];
  }

  lemma {:induction false} LosingRows(every: nat, k: nat)
    requires k < 2
    ensures var x := TextItem("a", "1");
      && !Rejected(Losing(every), x) && ExtractId(x.record, Single("id")) == Some("a")
      && Upsert(LosingDbs(every)[k].table, Accepted("a", x.record)).table == LosingDbs(every)[k + 1].table
    ensures MaxCursor(Losing(every), None, TextItem("a", "1").record) == Some("1")
  {
  }

  /** What an attempt of one page leaves, which is killed or fails. */
  lemma {:induction false} OnePageLeaves(cfg: Config, db: Db, x: Item, how: How, windowEnd: Option<string>)
    requires !UsesBatches(cfg) && cfg.checkpointEvery <= 1 && !Rejected(cfg, x) && db.interrupted == []
    requires how == Failed || how == CrashedAfterCheckpoint
    ensures var w, run := MaxCursor(cfg, None, x.record), cfg.(windowEnd := windowEnd);
      AfterAttempt(cfg, db, Attempt([[x]], how, windowEnd)) ==
      db.(table := Upsert(db.table, Accepted(ExtractId(x.record, cfg.key).value, x.record)).table,
          watermark := StoredWatermark(db.watermark, EffectiveWatermark(run, w)),
          interrupted := if how == CrashedAfterCheckpoint && cfg.checkpointEvery == 1 then [w] else [])
  {
    AfterOneRecord(cfg.(windowEnd := windowEnd), db, x);
  }

  lemma {:induction false} LosingPage(every: nat, k: nat)
    requires every <= 1 && k < 2
    ensures LosingDbs(every)[k + 1] == AfterAttempt(Losing(every), LosingDbs(every)[k], LosingAttempts()[k])
  {
    var a := LosingAttempts()[k];
    LosingRows(every, k);
    OnePageLeaves(Losing(every), LosingDbs(every)[k], TextItem("a", "1"), a.how, a.windowEnd);
  }

  lemma {:induction false} LosingNoPage(every: nat, k: nat)
    requires every <= 1 && 2 <= k < 4
    ensures LosingDbs(every)[k + 1] == AfterAttempt(Losing(every), LosingDbs(every)[k], LosingAttempts()[k])
  {
  }

  lemma {:induction false} LosingFaithful(every: nat, k: nat)
    requires every <= 1 && k < 4
    ensures SortedSource(Losing(every), Ordering.StrLeq, LOSING_SOURCE)
    ensures Faithful(Losing(every), Ordering.StrLeq, LOSING_SOURCE, LosingDbs(every)[k], LosingAttempts()[k])
  {
    LosingListing(every, k);
    TextOrder();
  }

  lemma {:induction false} LosingHistory(every: nat)
    requires every <= 1
    ensures History(Losing(every), Ordering.StrLeq, LOSING_SOURCE, LosingDbs(every), LosingAttempts())
  {
    LosingSorted(every);
    forall k | 0 <= k < 4
      ensures Faithful(Losing(every), Ordering.StrLeq, LOSING_SOURCE, LosingDbs(every)[k], LosingAttempts()[k])
      ensures LosingDbs(every)[k + 1] == AfterAttempt(Losing(every), LosingDbs(every)[k], LosingAttempts()[k])
    {
      LosingFaithful(every, k);
      if k < 2 { LosingPage(every, k); } else { LosingNoPage(every, k); }
    }
  }

  /** Two records are listed; the second is never stored, although the last attempt runs to its end and its window
      reaches beyond the record. Without checkpoints the windowed attempt loses it; with them that attempt is safe, and
      the next one loses it by using the checkpoint up. */
  lemma {:induction false} WindowLosesRecord(every: nat)
    requires every <= 1
    ensures var cfg, leq, dbs, attempts := Losing(every), Ordering.StrLeq, LosingDbs(every), LosingAttempts();
      && History(cfg, leq, LOSING_SOURCE, dbs, attempts) && CarriesCursor(cfg, LOSING_SOURCE[1])
      && (Resumable(cfg, leq, LOSING_SOURCE, dbs[2], false) <==> every == 1)
      && attempts[3].how.RanToEnd? && InWindow(RunConfig(cfg, attempts[3]), leq, LOSING_SOURCE[1])
      && Lost(cfg, leq, dbs[3], LOSING_SOURCE[1]) && Lost(cfg, leq, dbs[4], LOSING_SOURCE[1])
  {
    LosingHistory(every);
    TextOrder();
  }
}
