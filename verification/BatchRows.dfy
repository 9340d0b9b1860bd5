/** What the batch path does to keys, hashes and tombstones, whatever columns the records have. */
module BatchRows {
  import opened SourceTable

  lemma {:induction false} IdsLast(recs: seq<Accepted>)
    requires recs != []
    ensures Ids(recs) == Ids(recs[..|recs| - 1]) + {recs[|recs| - 1].id}
  {
    IdsAreMentions(recs);
    IdsAreMentions(recs[..|recs| - 1]);
    MentionsPrefix(recs);
  }

  // ---------------------------------------------------------------- keys and tombstones

  /** The new rows are live, and no tombstone comes or goes. */
  ghost predicate Grows(t: Table, t': Table, ids: set<string>) {
    t'.Keys == t.Keys + ids && Tombstoned(t') == Tombstoned(t)
  }

  lemma {:induction false} InsertRowsGrow(t: Table, cols: set<string>, recs: seq<Accepted>)
    ensures Grows(t, InsertRows(t, cols, recs), Ids(recs))
  {
    if recs != [] {
      var n := |recs| - 1;
      InsertRowsGrow(t, cols, recs[..n]);
      IdsLast(recs);
    }
  }

  lemma {:induction false} UpdateRowsGrow(t: Table, cols: set<string>, recs: seq<Accepted>)
    ensures Grows(t, UpdateRows(t, cols, recs), {})
  {
    if recs != [] { UpdateRowsGrow(t, cols, recs[..|recs| - 1]); }
  }

  lemma {:induction false} ToInsertIds(existing: map<string, Digest>, recs: seq<Accepted>)
    ensures Ids(ToInsert(existing, recs)) == Ids(recs) - existing.Keys
  {
    if recs != [] {
      var n := |recs| - 1;
      ToInsertIds(existing, recs[..n]);
      IdsLast(recs);
      if recs[n].id !in existing {
        var ins := ToInsert(existing, recs[..n]);
        IdsLast(ins + [recs[n]]);
        assert (ins + [recs[n]])[..|ins|] == ins;
      } else {
        assert ToInsert(existing, recs) == ToInsert(existing, recs[..n]);
      }
    }
  }

  lemma {:induction false} BulkUpsertGrows(t: Table, recs: seq<Accepted>)
    ensures Grows(t, BulkUpsert(t, recs).table, Ids(recs))
  {
    var existing, cols := Existing(t, recs), AllColumns(recs);
    var ins, upd := ToInsert(existing, recs), ToUpdate(existing, recs);
    ToInsertIds(existing, recs);
    InsertRowsGrow(t, cols, ins);
    UpdateRowsGrow(InsertRows(t, cols, ins), cols, upd);
    assert existing.Keys <= t.Keys;
    assert t.Keys + (Ids(recs) - existing.Keys) == t.Keys + Ids(recs);
  }

  lemma {:induction false} IdsConcat(a: seq<Accepted>, b: seq<Accepted>)
    ensures Ids(a + b) == Ids(a) + Ids(b)
  {
    forall id ensures id in Ids(a + b) <==> id in Ids(a) + Ids(b) {
      if i :| 0 <= i < |a| && a[i].id == id { assert (a + b)[i].id == id; }
      if i :| 0 <= i < |b| && b[i].id == id { assert (a + b)[|a| + i].id == id; }
    }
  }

  lemma {:induction false} FeedAllGrows(t: Table, recs: seq<Accepted>, size: nat)
    ensures var b := FeedAll(t, recs, size);
      b.done.table.Keys + Ids(b.buffer) == t.Keys + Ids(recs) && Tombstoned(b.done.table) == Tombstoned(t)
  {
    if recs != [] {
      var n := |recs| - 1;
      FeedAllGrows(t, recs[..n], size);
      IdsLast(recs);
      FeedGrows(FeedAll(t, recs[..n], size), recs[n], size);
    }
  }

  lemma {:induction false} FeedGrows(b: Buffered, a: Accepted, size: nat)
    ensures var b' := Feed(b, a, size);
      && b'.done.table.Keys + Ids(b'.buffer) == b.done.table.Keys + Ids(b.buffer) + {a.id}
      && Tombstoned(b'.done.table) == Tombstoned(b.done.table)
  {
    IdsConcat(b.buffer, [a]);
    IdsLast([a]);
    assert [a][..0] == [];
    BulkUpsertGrows(b.done.table, b.buffer + [a]);
  }

  /** A page on the batch path adds exactly the ids it mentions, as live rows, and keeps every tombstone. */
  lemma {:induction false} BulkAllGrows(t: Table, recs: seq<Accepted>, size: nat)
    ensures Grows(t, BulkAll(t, recs, size).table, Ids(recs))
  {
    FeedAllGrows(t, recs, size);
    var b := FeedAll(t, recs, size);
    if b.buffer != [] { BulkUpsertGrows(b.done.table, b.buffer); }
  }

  // ---------------------------------------------------------------- hashes

  /** Every record has a row with its hash. */
  ghost predicate Carries(t: Table, recs: seq<Accepted>) {
    forall i :: 0 <= i < |recs| ==> recs[i].id in t && t[recs[i].id].hash == RawHash(recs[i].record)
  }

  lemma {:induction false} InsertRowsKeep(t: Table, cols: set<string>, recs: seq<Accepted>, id: string)
    requires id in t
    ensures id in InsertRows(t, cols, recs) && InsertRows(t, cols, recs)[id] == t[id]
  {
    if recs != [] { InsertRowsKeep(t, cols, recs[..|recs| - 1], id); }
  }

  lemma {:induction false} UpdateRowsKeep(t: Table, cols: set<string>, recs: seq<Accepted>, id: string)
    requires id in t && !Mentions(recs, id)
    ensures id in UpdateRows(t, cols, recs) && UpdateRows(t, cols, recs)[id] == t[id]
  {
    if recs != [] {
      MentionsPrefix(recs);
      UpdateRowsKeep(t, cols, recs[..|recs| - 1], id);
    }
  }

  /** The hash of the only record with this id. */
  ghost predicate Only(recs: seq<Accepted>, a: Accepted) {
    forall i :: 0 <= i < |recs| && recs[i].id == a.id ==> recs[i] == a
  }

  lemma {:induction false} InsertRowsRow(t: Table, cols: set<string>, recs: seq<Accepted>, a: Accepted)
    requires a.id !in t && Mentions(recs, a.id) && Only(recs, a)
    ensures a.id in InsertRows(t, cols, recs)
    ensures InsertRows(t, cols, recs)[a.id] == Row(Bound(cols, a.record), RawHash(a.record), false)
  {
    var n := |recs| - 1;
    MentionsPrefix(recs);
    if Mentions(recs[..n], a.id) {
      InsertRowsRow(t, cols, recs[..n], a);
    } else {
      InsertRowsGrow(t, cols, recs[..n]);
      IdsAreMentions(recs[..n]);
    }
  }

  lemma {:induction false} UpdateRowsRow(t: Table, cols: set<string>, recs: seq<Accepted>, a: Accepted)
    requires a.id in t && Mentions(recs, a.id) && Only(recs, a)
    ensures a.id in UpdateRows(t, cols, recs)
    ensures UpdateRows(t, cols, recs)[a.id] ==
      t[a.id].(data := t[a.id].data + Bound(cols, a.record), hash := RawHash(a.record))
  {
    var n := |recs| - 1;
    MentionsPrefix(recs);
    UpdateRowsGrow(t, cols, recs[..n]);
    if Mentions(recs[..n], a.id) {
      UpdateRowsRow(t, cols, recs[..n], a);
      BoundTwice(t[a.id].data, cols, a.record);
    } else {
      UpdateRowsKeep(t, cols, recs[..n], a.id);
    }
  }

  lemma {:induction false} BoundTwice(data: Record, cols: set<string>, r: Record)
    ensures data + Bound(cols, r) + Bound(cols, r) == data + Bound(cols, r)
  {
  }

  lemma {:induction false} ToInsertOnly(existing: map<string, Digest>, recs: seq<Accepted>, a: Accepted)
    requires Only(recs, a)
    ensures Only(ToInsert(existing, recs), a)
  {
    if recs != [] { ToInsertOnly(existing, recs[..|recs| - 1], a); }
  }

  /** The record is updated exactly when it is there with another hash. */
  lemma {:induction false} ToUpdateOnly(existing: map<string, Digest>, recs: seq<Accepted>, a: Accepted)
    requires Only(recs, a) && Mentions(recs, a.id)
    ensures Only(ToUpdate(existing, recs), a)
    ensures Mentions(ToUpdate(existing, recs), a.id) <==> a.id in existing && existing[a.id] != RawHash(a.record)
  {
    var n := |recs| - 1;
    var upd, upd0 := ToUpdate(existing, recs), ToUpdate(existing, recs[..n]);
    MentionsPrefix(recs);
    if upd != upd0 {
      assert upd[..|upd0|] == upd0;
      MentionsPrefix(upd);
    }
    if Mentions(recs[..n], a.id) {
      ToUpdateOnly(existing, recs[..n], a);
    } else {
      NotUpdated(existing, recs[..n], a.id);
    }
  }

  lemma {:induction false} NotUpdated(existing: map<string, Digest>, recs: seq<Accepted>, id: string)
    requires !Mentions(recs, id)
    ensures !Mentions(ToUpdate(existing, recs), id)
  {
    if recs != [] {
      MentionsPrefix(recs);
      NotUpdated(existing, recs[..|recs| - 1], id);
    }
  }

  /** The row of a record that the batch has only once: inserted, updated or left alone. */
  lemma {:induction false} BulkUpsertRow(t: Table, recs: seq<Accepted>, a: Accepted)
    requires Mentions(recs, a.id) && Only(recs, a)
    ensures var after, cols := BulkUpsert(t, recs).table, AllColumns(recs);
      a.id in after && after[a.id] ==
        if a.id !in t then Row(Bound(cols, a.record), RawHash(a.record), false)
        else if t[a.id].hash == RawHash(a.record) then t[a.id]
        else Row(t[a.id].data + Bound(cols, a.record), RawHash(a.record), t[a.id].deleted)
  {
    var existing, cols := Existing(t, recs), AllColumns(recs);
    var ins, upd := ToInsert(existing, recs), ToUpdate(existing, recs);
    var inserted := InsertRows(t, cols, ins);
    ToInsertIds(existing, recs);
    ToInsertOnly(existing, recs, a);
    ToUpdateOnly(existing, recs, a);
    IdsAreMentions(recs);
    IdsAreMentions(ins);
    if a.id in t { InsertRowsKeep(t, cols, ins, a.id); } else { InsertRowsRow(t, cols, ins, a); }
    if Mentions(upd, a.id) { UpdateRowsRow(inserted, cols, upd, a); } else { UpdateRowsKeep(inserted, cols, upd, a.id); }
  }

  // ---------------------------------------------------------------- columns and counts

  /** Some record of the batch has the column. */
  ghost predicate InBatch(recs: seq<Accepted>, c: string) {
    exists i :: 0 <= i < |recs| && c in recs[i].record
  }

  lemma {:induction false} ColumnsAre(recs: seq<Accepted>)
    ensures forall c :: c in AllColumns(recs) <==> InBatch(recs, c)
  {
    if recs != [] {
      var n := |recs| - 1;
      ColumnsAre(recs[..n]);
      forall c ensures InBatch(recs, c) <==> InBatch(recs[..n], c) || c in recs[n].record {
        if i :| 0 <= i < n && c in recs[..n][i].record { assert c in recs[i].record; }
        if i :| 0 <= i < |recs| && c in recs[i].record { assert i == n || c in recs[..n][i].record; }
      }
    }
  }

  /** Every column of the batch holds the record's value, NULL if the record lacks it; other columns hold what they
      held. */
  ghost predicate Overlaid(recs: seq<Accepted>, old_: Record, r: Record, data: Record) {
    && (forall c :: c in data <==> InBatch(recs, c) || c in old_)
    && forall c :: c in data ==>
         data[c] == if c in r then r[c] else if InBatch(recs, c) || c !in old_ then Null else old_[c]
  }

  /** For any table and any batch with distinct ids: what becomes of each record's row. */
  lemma {:induction false} BulkUpsertDecides(t: Table, recs: seq<Accepted>, i: nat)
    requires DistinctIds(recs) && i < |recs|
    ensures var a, after := recs[i], BulkUpsert(t, recs).table;
      && a.id in after
      && (a.id in t && t[a.id].hash == RawHash(a.record) ==> after[a.id] == t[a.id])
      && (a.id in t && t[a.id].hash != RawHash(a.record) ==>
            && Overlaid(recs, t[a.id].data, a.record, after[a.id].data)
            && after[a.id].hash == RawHash(a.record) && after[a.id].deleted == t[a.id].deleted)
      && (a.id !in t ==>
            && Overlaid(recs, map[], a.record, after[a.id].data)
            && after[a.id].hash == RawHash(a.record) && !after[a.id].deleted)
  {
    var a := recs[i];
    assert Mentions(recs, a.id);
    ColumnsAre(recs);
    BulkUpsertRow(t, recs, a);
    BoundOverlays(recs, if a.id in t then t[a.id].data else map[], i);
  }

  lemma {:induction false} BoundOverlays(recs: seq<Accepted>, old_: Record, i: nat)
    requires i < |recs|
    ensures Overlaid(recs, old_, recs[i].record, old_ + Bound(AllColumns(recs), recs[i].record))
    ensures map[] + Bound(AllColumns(recs), recs[i].record) == Bound(AllColumns(recs), recs[i].record)
  {
    ColumnsAre(recs);
    forall c | c in recs[i].record ensures InBatch(recs, c) {}
  }

  ghost function NewOnes(t: Table, recs: seq<Accepted>): set<nat> {
    set i | 0 <= i < |recs| && recs[i].id !in t
  }

  ghost function Differing(t: Table, recs: seq<Accepted>): set<nat> {
    set i | 0 <= i < |recs| && recs[i].id in t && t[recs[i].id].hash != RawHash(recs[i].record)
  }

  /** The counts of a batch: its records without a row, and those whose row has another hash. */
  lemma {:induction false} BulkUpsertCounts(t: Table, recs: seq<Accepted>)
    ensures BulkUpsert(t, recs).inserted == |NewOnes(t, recs)| && BulkUpsert(t, recs).updated == |Differing(t, recs)|
  {
    assert forall i :: 0 <= i < |recs| ==> (recs[i].id in Existing(t, recs) <==> recs[i].id in t);
    PartitionCounts(t, Existing(t, recs), recs);
  }

  lemma {:induction false} CountsLast(t: Table, recs: seq<Accepted>)
    requires recs != []
    ensures var n := |recs| - 1;
      && NewOnes(t, recs) == NewOnes(t, recs[..n]) + (if recs[n].id !in t then {n} else {})
      && Differing(t, recs) == Differing(t, recs[..n]) +
           if recs[n].id in t && t[recs[n].id].hash != RawHash(recs[n].record) then {n} else {}
  {
  }

  lemma {:induction false} PartitionCounts(t: Table, existing: map<string, Digest>, recs: seq<Accepted>)
    requires forall i :: 0 <= i < |recs| ==> (recs[i].id in existing <==> recs[i].id in t)
    requires forall id :: id in existing && id in t ==> existing[id] == t[id].hash
    ensures |ToInsert(existing, recs)| == |NewOnes(t, recs)| && |ToUpdate(existing, recs)| == |Differing(t, recs)|
  {
    if recs != [] {
      PartitionCounts(t, existing, recs[..|recs| - 1]);
      CountsLast(t, recs);
    }
  }

  /** A row the batch does not mention stays as it is. */
  lemma {:induction false} BulkUpsertKeeps(t: Table, recs: seq<Accepted>, id: string)
    requires id in t && !Mentions(recs, id)
    ensures var after := BulkUpsert(t, recs).table; id in after && after[id] == t[id]
  {
    var existing, cols := Existing(t, recs), AllColumns(recs);
    var ins, upd := ToInsert(existing, recs), ToUpdate(existing, recs);
    NotUpdated(existing, recs, id);
    InsertRowsKeep(t, cols, ins, id);
    UpdateRowsKeep(InsertRows(t, cols, ins), cols, upd, id);
  }

  /** The record waits in the buffer or has a row with its hash. */
  ghost predicate Handed(b: Buffered, a: Accepted) {
    Mentions(b.buffer, a.id) || (a.id in b.done.table && b.done.table[a.id].hash == RawHash(a.record))
  }

  lemma {:induction false} FeedAllHash(t: Table, recs: seq<Accepted>, size: nat, a: Accepted)
    requires Mentions(recs, a.id) && Only(recs, a)
    ensures Handed(FeedAll(t, recs, size), a) && Only(FeedAll(t, recs, size).buffer, a)
  {
    var n := |recs| - 1;
    var b := FeedAll(t, recs[..n], size);
    var buffer := b.buffer + [recs[n]];
    MentionsPrefix(recs);
    BufferOnly(t, recs[..n], size, a);
    assert Only(buffer, a);
    assert buffer[..|b.buffer|] == b.buffer;
    MentionsPrefix(buffer);
    if Mentions(recs[..n], a.id) { FeedAllHash(t, recs[..n], size, a); }
    if Mentions(buffer, a.id) {
      BulkUpsertRow(b.done.table, buffer, a);
    } else {
      BulkUpsertKeeps(b.done.table, buffer, a.id);
    }
  }

  lemma {:induction false} BufferOnly(t: Table, recs: seq<Accepted>, size: nat, a: Accepted)
    requires Only(recs, a)
    ensures Only(FeedAll(t, recs, size).buffer, a)
  {
    if recs != [] { BufferOnly(t, recs[..|recs| - 1], size, a); }
  }

  lemma {:induction false} FeedAllKeeps(t: Table, recs: seq<Accepted>, size: nat, id: string)
    requires id in t && !Mentions(recs, id)
    ensures var b := FeedAll(t, recs, size); !Mentions(b.buffer, id) && id in b.done.table && b.done.table[id] == t[id]
  {
    if recs != [] {
      var n := |recs| - 1;
      MentionsPrefix(recs);
      FeedAllKeeps(t, recs[..n], size, id);
      var b := FeedAll(t, recs[..n], size);
      var buffer := b.buffer + [recs[n]];
      assert buffer[..|b.buffer|] == b.buffer;
      MentionsPrefix(buffer);
      BulkUpsertKeeps(b.done.table, buffer, id);
    }
  }

  /** Every record of a page ends with its hash, and rows not mentioned stay. */
  lemma {:induction false} BulkAllCarries(t: Table, recs: seq<Accepted>, size: nat)
    requires DistinctIds(recs)
    ensures Carries(BulkAll(t, recs, size).table, recs)
    ensures forall id :: id in t && !Mentions(recs, id) ==>
      id in BulkAll(t, recs, size).table && BulkAll(t, recs, size).table[id] == t[id]
  {
    var b := FeedAll(t, recs, size);
    forall i | 0 <= i < |recs|
      ensures var after := BulkAll(t, recs, size).table;
        recs[i].id in after && after[recs[i].id].hash == RawHash(recs[i].record)
    {
      FeedAllHash(t, recs, size, recs[i]);
      if Mentions(b.buffer, recs[i].id) {
        BulkUpsertRow(b.done.table, b.buffer, recs[i]);
      } else {
        FlushRestKeeps(b, recs[i].id);
      }
    }
    forall id | id in t && !Mentions(recs, id)
      ensures id in BulkAll(t, recs, size).table && BulkAll(t, recs, size).table[id] == t[id]
    {
      FeedAllKeeps(t, recs, size, id);
      FlushRestKeeps(b, id);
    }
  }

  lemma {:induction false} FlushRestKeeps(b: Buffered, id: string)
    requires id in b.done.table && !Mentions(b.buffer, id)
    ensures var after := FlushRest(b).done.table; id in after && after[id] == b.done.table[id]
  {
    BulkUpsertKeeps(b.done.table, b.buffer, id);
  }

  // ---------------------------------------------------------------- nothing to do

  lemma {:induction false} NothingToDo(existing: map<string, Digest>, recs: seq<Accepted>)
    requires forall i :: 0 <= i < |recs| ==> recs[i].id in existing && existing[recs[i].id] == RawHash(recs[i].record)
    ensures ToInsert(existing, recs) == [] && ToUpdate(existing, recs) == []
  {
    if recs != [] { NothingToDo(existing, recs[..|recs| - 1]); }
  }

  lemma {:induction false} BulkUpsertNoop(t: Table, recs: seq<Accepted>)
    requires Carries(t, recs)
    ensures BulkUpsert(t, recs) == Written(t, 0, 0)
  {
    NothingToDo(Existing(t, recs), recs);
  }

  lemma {:induction false} FeedAllNoop(t: Table, recs: seq<Accepted>, size: nat)
    requires Carries(t, recs)
    ensures FeedAll(t, recs, size).done == Written(t, 0, 0) && Carries(t, FeedAll(t, recs, size).buffer)
  {
    if recs != [] {
      var n := |recs| - 1;
      FeedAllNoop(t, recs[..n], size);
      BulkUpsertNoop(t, FeedAll(t, recs[..n], size).buffer + [recs[n]]);
    }
  }

  /** Records that already have rows with their hashes are not written again. */
  lemma {:induction false} BulkAllNoop(t: Table, recs: seq<Accepted>, size: nat)
    requires Carries(t, recs)
    ensures BulkAll(t, recs, size) == Written(t, 0, 0)
  {
    FeedAllNoop(t, recs, size);
    BulkUpsertNoop(t, FeedAll(t, recs, size).buffer);
  }
}
