/** What the records of a run add up to, each judged by itself: which are dead-lettered, which are written, which are
    repetitions, and which cursor is the greatest. */
module ScanMeaning {
  import opened Wrappers
  import opened SourceTable
  import opened SyncEngine
  import opened SyncRuns
  import Ordering

  // ---------------------------------------------------------------- ids

  ghost predicate Filled(r: Record, fields: seq<string>) {
    forall i :: 0 <= i < |fields| ==> fields[i] in r && r[fields[i]] != Null
  }

  /** The texts of the fields with colons between them, put together from the left. */
  ghost function Joined(r: Record, fields: seq<string>): string
    requires Filled(r, fields)
  {
    if fields == [] then ""
    else
      var n := |fields| - 1;
      if n == 0 then r[fields[0]].text else Joined(r, fields[..n]) + ":" + r[fields[n]].text
  }

  lemma {:induction false} JoinLast(r: Record, fields: seq<string>)
    requires Filled(r, fields) && |fields| > 1
    ensures var n := |fields| - 1; JoinFields(r, fields) == JoinFields(r, fields[..n]) + ":" + r[fields[n]].text
  {
    var n := |fields| - 1;
    if n > 1 {
      JoinLast(r, fields[1..]);
      assert fields[1..][..n - 1] == fields[..n][1..];
      assert JoinFields(r, fields[..n]) == r[fields[0]].text + ":" + JoinFields(r, fields[..n][1..]);
    } else {
      assert fields[1..] == [fields[1]] && fields[..1] == [fields[0]];
    }
  }

  lemma {:induction false} JoinIs(r: Record, fields: seq<string>)
    requires Filled(r, fields)
    ensures JoinFields(r, fields) == Joined(r, fields)
  {
    if |fields| > 1 {
      JoinIs(r, fields[..|fields| - 1]);
      JoinLast(r, fields);
    }
  }

  /** A record has an id if and only if every key field is there and not null. */
  lemma {:induction false} IdIs(r: Record, key: PrimaryKey)
    ensures match key
      case Single(f) => ExtractId(r, key) == if f in r && r[f] != Null then Some(r[f].text) else None
      case Composite(fs) => ExtractId(r, key) == if Filled(r, fs) then Some(Joined(r, fs)) else None
  {
    if key.Composite? && Filled(r, key.fields) { JoinIs(r, key.fields); }
  }

  // ---------------------------------------------------------------- one record among the others

  ghost predicate Bad(cfg: Config, item: Item) {
    item.violates || ExtractId(item.record, cfg.key).None?
  }

  /** The record is not rejected, and none before it that is not rejected has its id. */
  ghost predicate First(cfg: Config, items: seq<Item>, k: int) {
    && 0 <= k < |items| && !Bad(cfg, items[k])
    && forall j :: 0 <= j < k && !Bad(cfg, items[j]) ==>
         ExtractId(items[j].record, cfg.key) != ExtractId(items[k].record, cfg.key)
  }

  /** How many of the first `k` records are rejected .. */
  ghost function BadCount(cfg: Config, items: seq<Item>, k: nat): nat
    requires k <= |items|
  {
    if k == 0 then 0 else BadCount(cfg, items, k - 1) + if Bad(cfg, items[k - 1]) then 1 else 0
  }

  /** .. and how many are first occurrences. */
  ghost function FirstCount(cfg: Config, items: seq<Item>, k: nat): nat
    requires k <= |items|
  {
    if k == 0 then 0 else FirstCount(cfg, items, k - 1) + if First(cfg, items, k - 1) then 1 else 0
  }

  ghost function LetterFor(cfg: Config, item: Item): DeadLetter {
    if item.violates then DeadLetter(ExtractId(item.record, cfg.key), item.record, "quality_violation")
    else DeadLetter(None, item.record, "data_error")
  }

  ghost predicate DeadAt(cfg: Config, items: seq<Item>, dead: seq<DeadLetter>, k: nat)
    requires k < |items|
  {
    var p := BadCount(cfg, items, k);
    p < |dead| && dead[p] == LetterFor(cfg, items[k])
  }

  /** The dead letters are those of the rejected records, in their order. */
  ghost predicate DeadAre(cfg: Config, items: seq<Item>, dead: seq<DeadLetter>) {
    && |dead| == BadCount(cfg, items, |items|)
    && forall k :: 0 <= k < |items| && Bad(cfg, items[k]) ==> DeadAt(cfg, items, dead, k)
  }

  ghost predicate AcceptedAt(cfg: Config, items: seq<Item>, accepted: seq<Accepted>, k: nat)
    requires k < |items|
  {
    var p := FirstCount(cfg, items, k);
    p < |accepted| && Some(accepted[p].id) == ExtractId(items[k].record, cfg.key) && accepted[p].record == items[k].record
  }

  /** The records accepted are the first occurrences, in their order. */
  ghost predicate AcceptedAre(cfg: Config, items: seq<Item>, accepted: seq<Accepted>) {
    && |accepted| == FirstCount(cfg, items, |items|)
    && forall k :: 0 <= k < |items| && First(cfg, items, k) ==> AcceptedAt(cfg, items, accepted, k)
  }

  ghost predicate SeenAre(cfg: Config, items: seq<Item>, seen: set<string>) {
    forall id :: id in seen <==> exists k :: First(cfg, items, k) && ExtractId(items[k].record, cfg.key) == Some(id)
  }

  ghost predicate Means(cfg: Config, items: seq<Item>, s: Scan) {
    && DeadAre(cfg, items, s.dead) && AcceptedAre(cfg, items, s.accepted) && SeenAre(cfg, items, s.seen)
    && |items| == |s.dead| + |s.accepted| + s.duplicates
  }

  lemma {:induction false} FirstOfPrefix(cfg: Config, items: seq<Item>, n: nat)
    requires n <= |items|
    ensures forall k :: 0 <= k < n ==> (First(cfg, items[..n], k) <==> First(cfg, items, k))
  {
  }

  lemma {:induction false} PlacesKept(cfg: Config, items: seq<Item>, n: nat, k: nat)
    requires k <= n <= |items|
    ensures BadCount(cfg, items[..n], k) == BadCount(cfg, items, k) && FirstCount(cfg, items[..n], k) == FirstCount(cfg, items, k)
    decreases k
  {
    if k > 0 {
      PlacesKept(cfg, items, n, k - 1);
      FirstOfPrefix(cfg, items, n);
      assert items[..n][k - 1] == items[k - 1];
    }
  }

  /** Every record counts once: dead-lettered, accepted or passed over as a repetition. */
  lemma {:induction false} ScanMeans(cfg: Config, items: seq<Item>)
    ensures Means(cfg, items, ScanItems(cfg, NOTHING, items))
  {
    if items != [] {
      var n := |items| - 1;
      ScanMeans(cfg, items[..n]);
      OneMeans(cfg, items, ScanItems(cfg, NOTHING, items[..n]));
    }
  }

  lemma {:induction false} LastIsFirstIff(cfg: Config, items: seq<Item>, seen: set<string>)
    requires items != [] && SeenAre(cfg, items[..|items| - 1], seen) && !Bad(cfg, items[|items| - 1])
    ensures var n := |items| - 1; First(cfg, items, n) <==> ExtractId(items[n].record, cfg.key).value !in seen
  {
    var n := |items| - 1;
    var id := ExtractId(items[n].record, cfg.key).value;
    FirstOfPrefix(cfg, items, n);
    if k :| First(cfg, items[..n], k) && ExtractId(items[..n][k].record, cfg.key) == Some(id) {
      assert !Bad(cfg, items[k]) && ExtractId(items[k].record, cfg.key) == Some(id);
    }
    if !First(cfg, items, n) {
      var j :| 0 <= j < n && !Bad(cfg, items[j]) && ExtractId(items[j].record, cfg.key) == Some(id);
      var k := EarliestWith(cfg, items, j);
      assert First(cfg, items[..n], k) && ExtractId(items[..n][k].record, cfg.key) == Some(id);
    }
  }

  lemma {:induction false} EarliestWith(cfg: Config, items: seq<Item>, j: nat) returns (k: nat)
    requires j < |items| && !Bad(cfg, items[j])
    ensures k <= j && First(cfg, items, k) && ExtractId(items[k].record, cfg.key) == ExtractId(items[j].record, cfg.key)
  {
    k := j;
    if !First(cfg, items, j) {
      var i :| 0 <= i < j && !Bad(cfg, items[i]) && ExtractId(items[i].record, cfg.key) == ExtractId(items[j].record, cfg.key);
      k := EarliestWith(cfg, items, i);
    }
  }

  lemma {:induction false} OneMeans(cfg: Config, items: seq<Item>, s: Scan)
    requires items != [] && Means(cfg, items[..|items| - 1], s)
    ensures Means(cfg, items, ScanItem(cfg, s, items[|items| - 1]))
  {
    var n := |items| - 1;
    var s' := ScanItem(cfg, s, items[n]);
    if !Bad(cfg, items[n]) { LastIsFirstIff(cfg, items, s.seen); }
    DeadNext(cfg, items, s.dead, s'.dead);
    AcceptedNext(cfg, items, s.accepted, s'.accepted);
    SeenNext(cfg, items, s.seen, s'.seen);
  }

  lemma {:induction false} DeadNext(cfg: Config, items: seq<Item>, dead: seq<DeadLetter>, dead': seq<DeadLetter>)
    requires items != [] && DeadAre(cfg, items[..|items| - 1], dead)
    requires var x := items[|items| - 1]; dead' == dead + if Bad(cfg, x) then [LetterFor(cfg, x)] else []
    ensures DeadAre(cfg, items, dead')
  {
    var n := |items| - 1;
    PlacesKept(cfg, items, n, n);
    forall k | 0 <= k < n && Bad(cfg, items[k]) ensures DeadAt(cfg, items, dead', k) {
      PlacesKept(cfg, items, n, k);
      assert items[..n][k] == items[k] && DeadAt(cfg, items[..n], dead, k);
    }
  }

  lemma {:induction false} AcceptedNext(cfg: Config, items: seq<Item>, accepted: seq<Accepted>, accepted': seq<Accepted>)
    requires items != [] && AcceptedAre(cfg, items[..|items| - 1], accepted)
    requires var n := |items| - 1;
      accepted' == accepted +
        if First(cfg, items, n) then [Accepted(ExtractId(items[n].record, cfg.key).value, items[n].record)] else []
    ensures AcceptedAre(cfg, items, accepted')
  {
    var n := |items| - 1;
    FirstOfPrefix(cfg, items, n);
    PlacesKept(cfg, items, n, n);
    forall k | 0 <= k < n && First(cfg, items, k) ensures AcceptedAt(cfg, items, accepted', k) {
      PlacesKept(cfg, items, n, k);
      assert items[..n][k] == items[k] && First(cfg, items[..n], k) && AcceptedAt(cfg, items[..n], accepted, k);
    }
  }

  lemma {:induction false} SeenNext(cfg: Config, items: seq<Item>, seen: set<string>, seen': set<string>)
    requires items != [] && SeenAre(cfg, items[..|items| - 1], seen)
    requires var n := |items| - 1;
      seen' == seen + if First(cfg, items, n) then {ExtractId(items[n].record, cfg.key).value} else {}
    ensures SeenAre(cfg, items, seen')
  {
    var n := |items| - 1;
    FirstOfPrefix(cfg, items, n);
    forall id ensures id in seen' <==> exists k :: First(cfg, items, k) && ExtractId(items[k].record, cfg.key) == Some(id) {
      if id in seen {
        var k :| First(cfg, items[..n], k) && ExtractId(items[..n][k].record, cfg.key) == Some(id);
        assert First(cfg, items, k) && ExtractId(items[k].record, cfg.key) == Some(id);
      }
      if k :| First(cfg, items, k) && ExtractId(items[k].record, cfg.key) == Some(id) {
        assert k < n ==> First(cfg, items[..n], k) && ExtractId(items[..n][k].record, cfg.key) == Some(id);
      }
    }
  }

  // ---------------------------------------------------------------- the greatest cursor

  ghost predicate Cursored(cfg: Config, items: seq<Item>, k: int) {
    && First(cfg, items, k) && cfg.cursorField.Some?
    && cfg.cursorField.value in items[k].record && items[k].record[cfg.cursorField.value] != Null
  }

  ghost function CursorAt(cfg: Config, items: seq<Item>, k: int): string
    requires Cursored(cfg, items, k)
  {
    items[k].record[cfg.cursorField.value].text
  }

  /** No first occurrence has a greater cursor, and one has this. */
  ghost predicate Greatest(cfg: Config, items: seq<Item>, w: Option<string>) {
    && (forall k :: Cursored(cfg, items, k) ==> w.Some? && !Ordering.StrLess(w.value, CursorAt(cfg, items, k)))
    && (w.Some? ==> exists k :: Cursored(cfg, items, k) && CursorAt(cfg, items, k) == w.value)
  }

  lemma {:induction false} ScanGreatest(cfg: Config, items: seq<Item>)
    ensures Greatest(cfg, items, ScanItems(cfg, NOTHING, items).watermark)
  {
    if items != [] {
      var n := |items| - 1;
      var s := ScanItems(cfg, NOTHING, items[..n]);
      ScanGreatest(cfg, items[..n]);
      ScanMeans(cfg, items[..n]);
      if !Bad(cfg, items[n]) { LastIsFirstIff(cfg, items, s.seen); }
      GreatestNext(cfg, items, s.watermark, ScanItem(cfg, s, items[n]).watermark);
    }
  }

  lemma {:induction false} GreatestNext(cfg: Config, items: seq<Item>, w: Option<string>, w': Option<string>)
    requires items != [] && Greatest(cfg, items[..|items| - 1], w)
    requires var n := |items| - 1; w' == if First(cfg, items, n) then MaxCursor(cfg, w, items[n].record) else w
    ensures Greatest(cfg, items, w')
  {
    var n := |items| - 1;
    FirstOfPrefix(cfg, items, n);
    forall k | Cursored(cfg, items, k) ensures w'.Some? && !Ordering.StrLess(w'.value, CursorAt(cfg, items, k)) {
      if k < n {
        assert Cursored(cfg, items[..n], k) && CursorAt(cfg, items[..n], k) == CursorAt(cfg, items, k);
        Ordering.StrLessTotal(w.value, w'.value);
        if Ordering.StrLess(w'.value, CursorAt(cfg, items, k)) && w' != w {
          Ordering.StrLessTransitive(w.value, w'.value, CursorAt(cfg, items, k));
        }
      } else {
        Ordering.StrLessTotal(w'.value, w'.value);
      }
    }
    if w'.Some? {
      if w' == w {
        var k :| Cursored(cfg, items[..n], k) && CursorAt(cfg, items[..n], k) == w.value;
        assert Cursored(cfg, items, k) && CursorAt(cfg, items, k) == w'.value;
      } else {
        assert Cursored(cfg, items, n) && CursorAt(cfg, items, n) == w'.value;
      }
    }
  }

  /** Whatever the pages: the run's cursor is the greatest of those of the first occurrences. Without a window it is
      stored, unless there is none or it is empty; with one the end of the window is, if there was any record. */
  lemma {:induction false} WatermarkIsGreatest(cfg: Config, db: Db, pages: seq<seq<Item>>)
    ensures var st := AfterPages(cfg, db, pages);
      && Greatest(cfg, Flatten(pages), st.run.watermark)
      && st.db.watermark == (match cfg.windowEnd
                             case Some(end) => if end != "" && Flatten(pages) != [] then cfg.windowEnd else db.watermark
                             case None => if st.run.watermark.Some? && st.run.watermark.value != "" then st.run.watermark
                                          else db.watermark)
  {
    PagesInClosedForm(cfg, Begin(cfg, db).state.db, pages);
    ScanGreatest(cfg, Flatten(pages));
  }

  /** And counters, dead letters and seen ids are those of the records judged one by one. */
  lemma {:induction false} RunMeans(cfg: Config, db: Db, pages: seq<seq<Item>>)
    ensures var st, items := AfterPages(cfg, db, pages), Flatten(pages);
      && db.dead <= st.db.dead && DeadAre(cfg, items, st.db.dead[|db.dead|..])
      && SeenAre(cfg, items, st.run.seen)
      && st.run.errored == BadCount(cfg, items, |items|)
      && st.run.fetched == BadCount(cfg, items, |items|) + FirstCount(cfg, items, |items|)
  {
    PagesInClosedForm(cfg, Begin(cfg, db).state.db, pages);
    ScanMeans(cfg, Flatten(pages));
    assert AfterPages(cfg, db, pages).db.dead[|db.dead|..] == RunScan(cfg, pages).dead;
  }
}
