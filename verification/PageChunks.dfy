/** Where a page on the batch path is cut: into batches of the configured size, the last one shorter. */
module PageChunks {
  import opened SourceTable
  import opened SyncEngine

  /** One batch after the other, each of `size` records as long as there are more. */
  ghost function InChunks(t: Table, recs: seq<Accepted>, size: nat): Written
    requires size > 0
    decreases |recs|
  {
    if recs == [] then Written(t, 0, 0)
    else if |recs| <= size then BulkUpsert(t, recs)
    else
      var first := BulkUpsert(t, recs[..size]);
      Then(first, InChunks(first.table, recs[size..], size))
  }

  /** The buffer fills up .. */
  lemma {:induction false} Fills(t: Table, recs: seq<Accepted>, size: nat)
    requires |recs| < size
    ensures FeedAll(t, recs, size) == Buffered(Written(t, 0, 0), recs)
  {
    if recs != [] {
      var n := |recs| - 1;
      Fills(t, recs[..n], size);
      assert recs == recs[..n] + [recs[n]];
    }
  }

  lemma {:induction false} FeedFull(t: Table, buffer: seq<Accepted>, a: Accepted, size: nat)
    requires |buffer| + 1 >= size
    ensures Feed(Buffered(Written(t, 0, 0), buffer), a, size) == Buffered(BulkUpsert(t, buffer + [a]), [])
  {
  }

  lemma {:induction false} FeedAllLast(t: Table, front: seq<Accepted>, a: Accepted, size: nat)
    ensures FeedAll(t, front + [a], size) == Feed(FeedAll(t, front, size), a, size)
  {
    assert (front + [a])[..|front|] == front;
  }

  /** .. and is written when it is full. */
  lemma {:induction false} FlushesWhenFull(t: Table, recs: seq<Accepted>, size: nat)
    requires |recs| == size > 0
    ensures FeedAll(t, recs, size) == Buffered(BulkUpsert(t, recs), [])
  {
    var front, last := recs[..|recs| - 1], recs[|recs| - 1];
    assert recs == front + [last];
    Fills(t, front, size);
    FeedAllLast(t, front, last, size);
    FeedFull(t, front, last, size);
  }

  lemma {:induction false} ThenAgain(first: Written, b: Buffered, a: Accepted, size: nat)
    ensures var (x, y) := (Feed(b, a, size), Feed(Buffered(Then(first, b.done), b.buffer), a, size));
      y == Buffered(Then(first, x.done), x.buffer)
  {
  }

  /** Feeding goes on from an empty buffer as from the start. */
  lemma {:induction false} FeedOn(t: Table, a: seq<Accepted>, b: seq<Accepted>, size: nat)
    requires FeedAll(t, a, size).buffer == []
    ensures var first := FeedAll(t, a, size).done;
      var rest := FeedAll(first.table, b, size);
      FeedAll(t, a + b, size) == Buffered(Then(first, rest.done), rest.buffer)
    decreases |b|
  {
    var first := FeedAll(t, a, size).done;
    if b == [] {
      assert a + b == a;
    } else {
      var front, last := b[..|b| - 1], b[|b| - 1];
      FeedOn(t, a, front, size);
      assert b == front + [last] && a + b == (a + front) + [last];
      FeedAllLast(t, a + front, last, size);
      FeedAllLast(first.table, front, last, size);
      ThenAgain(first, FeedAll(first.table, front, size), last, size);
    }
  }

  /** A page is written in batches of exactly `size` records, and one of what is left. */
  lemma {:induction false} PageIsChunks(t: Table, recs: seq<Accepted>, size: nat)
    requires size > 0
    ensures BulkAll(t, recs, size) == InChunks(t, recs, size)
    decreases |recs|
  {
    if |recs| < size {
      Fills(t, recs, size);
    } else {
      FlushesWhenFull(t, recs[..size], size);
      var first := BulkUpsert(t, recs[..size]);
      FeedOn(t, recs[..size], recs[size..], size);
      assert recs == recs[..size] + recs[size..];
      if |recs| == size {
        assert recs[..size] == recs && recs[size..] == [];
      } else {
        PageIsChunks(first.table, recs[size..], size);
      }
    }
  }

  /** Batches are used for a single-column key and a size of at least two; else the records are upserted one by one. */
  lemma {:induction false} PageWrites(cfg: Config, st: State, page: seq<Item>)
    requires page != []
    ensures var accepted := PageScan(cfg, st.run, page).accepted;
      CommitPage(cfg, st, page).db.table ==
      (if cfg.key.Single? && 2 <= cfg.batchSize then InChunks(st.db.table, accepted, cfg.batchSize).table
       else UpsertAll(st.db.table, accepted).table)
  {
    var accepted := PageScan(cfg, st.run, page).accepted;
    if 2 <= cfg.batchSize { PageIsChunks(st.db.table, accepted, cfg.batchSize); }
    PageScanOf(cfg, st, page);
  }

  lemma {:induction false} PageScanOf(cfg: Config, st: State, page: seq<Item>)
    ensures PageScan(cfg, st.run.(page := st.run.page + 1, fetched := st.run.fetched + |page|), page) == PageScan(cfg, st.run, page)
  {
  }
}
