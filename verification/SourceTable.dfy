/** Source-table rows and the two ways records are written to them: one at a time
    (engine/src/inandout/ingestion/engine.py) and in batches (engine/src/inandout/postgres/bulk_upsert.py). */
module SourceTable {

  /** A JSON value, seen through its type and its `str()`. */
  datatype Value = Null | Scalar(kind: nat, text: string)

  type Record = map<string, Value>

  /** SHA-256 of the key-sorted JSON text, taken as injective. */
  datatype Digest = Digest(content: Record)

  function RawHash(r: Record): Digest { Digest(r) }

  datatype Row = Row(data: Record, hash: Digest, deleted: bool)

  type Table = map<string, Row>

  datatype Accepted = Accepted(id: string, record: Record)

  datatype Written = Written(table: Table, inserted: nat, updated: nat)

  // ---------------------------------------------------------------- one record

  /** `_upsert_record`: equal hash means no write except clearing a tombstone, which does not restore `data`. */
  function Upsert(t: Table, a: Accepted): Written {
    if a.id !in t then
      Written(t[a.id := Row(a.record, RawHash(a.record), false)], 1, 0)
    else if t[a.id].hash != RawHash(a.record) then
      Written(t[a.id := Row(a.record, RawHash(a.record), false)], 0, 1)
    else
      Written(t[a.id := t[a.id].(deleted := false)], 0, 0)
  }

  function UpsertAll(t: Table, recs: seq<Accepted>): Written {
    if recs == [] then Written(t, 0, 0)
    else
      var n := |recs| - 1;
      var before := UpsertAll(t, recs[..n]);
      var after := Upsert(before.table, recs[n]);
      Written(after.table, before.inserted + after.inserted, before.updated + after.updated)
  }

  /** The row that one upsert leaves, given the row there was. */
  ghost predicate Upserted(t: Table, a: Accepted, row: Row) {
    && row.hash == RawHash(a.record) && !row.deleted
    && row.data == if a.id in t && t[a.id].hash == RawHash(a.record) then t[a.id].data else a.record
  }

  ghost predicate DistinctIds(recs: seq<Accepted>) {
    forall i, j :: 0 <= i < j < |recs| ==> recs[i].id != recs[j].id
  }

  ghost predicate Mentions(recs: seq<Accepted>, id: string) {
    exists i :: 0 <= i < |recs| && recs[i].id == id
  }

  ghost function Ids(recs: seq<Accepted>): set<string> {
    set i | 0 <= i < |recs| :: recs[i].id
  }

  lemma {:induction false} IdsAreMentions(recs: seq<Accepted>)
    ensures forall id :: id in Ids(recs) <==> Mentions(recs, id)
  {
  }

  function LiveIds(t: Table): set<string> {
    set id | id in t && !t[id].deleted
  }

  function Tombstoned(t: Table): set<string> {
    set id | id in t && t[id].deleted
  }

  lemma {:induction false} UpsertAllKeys(t: Table, recs: seq<Accepted>)
    ensures forall id :: id in UpsertAll(t, recs).table <==> id in t || Mentions(recs, id)
    ensures forall id :: id in t && !Mentions(recs, id) ==> UpsertAll(t, recs).table[id] == t[id]
  {
    if recs != [] {
      var n := |recs| - 1;
      UpsertAllKeys(t, recs[..n]);
      MentionsPrefix(recs);
    }
  }

  lemma {:induction false} MentionsPrefix(recs: seq<Accepted>)
    requires recs != []
    ensures var n := |recs| - 1;
      forall id :: Mentions(recs, id) <==> Mentions(recs[..n], id) || recs[n].id == id
  {
    var n := |recs| - 1;
    forall id ensures Mentions(recs, id) <==> Mentions(recs[..n], id) || recs[n].id == id {
      if Mentions(recs[..n], id) {
        var i :| 0 <= i < n && recs[..n][i].id == id;
        assert recs[i].id == id;
      }
      if i :| 0 <= i < |recs| && recs[i].id == id {
        assert i == n || recs[..n][i].id == id;
      }
    }
  }

  /** With distinct ids every record decides its own row. */
  lemma {:induction false} UpsertAllRow(t: Table, recs: seq<Accepted>, i: nat)
    requires DistinctIds(recs) && i < |recs|
    ensures recs[i].id in UpsertAll(t, recs).table && Upserted(t, recs[i], UpsertAll(t, recs).table[recs[i].id])
  {
    var n := |recs| - 1;
    if i == n {
      UpsertAllKeys(t, recs[..n]);
    } else {
      UpsertAllRow(t, recs[..n], i);
    }
  }

  // ---------------------------------------------------------------- one batch

  /** Existing hashes of the batch, read once before anything is written. */
  function Existing(t: Table, recs: seq<Accepted>): map<string, Digest> {
    map id | id in t && (exists i :: 0 <= i < |recs| && recs[i].id == id) :: t[id].hash
  }

  function AllColumns(recs: seq<Accepted>): set<string> {
    if recs == [] then {} else AllColumns(recs[..|recs| - 1]) + recs[|recs| - 1].record.Keys
  }

  /** The column values a statement binds: a column the record lacks is bound to NULL. */
  function Bound(cols: set<string>, r: Record): Record {
    map c | c in cols :: if c in r then r[c] else Null
  }

  function ToInsert(existing: map<string, Digest>, recs: seq<Accepted>): seq<Accepted> {
    if recs == [] then []
    else
      var n := |recs| - 1;
      ToInsert(existing, recs[..n]) + if recs[n].id !in existing then [recs[n]] else []
  }

  function ToUpdate(existing: map<string, Digest>, recs: seq<Accepted>): seq<Accepted> {
    if recs == [] then []
    else
      var n := |recs| - 1;
      ToUpdate(existing, recs[..n]) +
      if recs[n].id in existing && existing[recs[n].id] != RawHash(recs[n].record) then [recs[n]] else []
  }

  /** INSERT .. ON CONFLICT DO NOTHING. */
  function InsertRow(t: Table, cols: set<string>, a: Accepted): Table {
    if a.id in t then t else t[a.id := Row(Bound(cols, a.record), RawHash(a.record), false)]
  }

  function InsertRows(t: Table, cols: set<string>, recs: seq<Accepted>): Table {
    if recs == [] then t
    else InsertRow(InsertRows(t, cols, recs[..|recs| - 1]), cols, recs[|recs| - 1])
  }

  /** UPDATE of the batch's columns; it leaves `_deleted` and any other column alone. */
  function UpdateRow(t: Table, cols: set<string>, a: Accepted): Table {
    if a.id !in t then t
    else t[a.id := t[a.id].(data := t[a.id].data + Bound(cols, a.record), hash := RawHash(a.record))]
  }

  function UpdateRows(t: Table, cols: set<string>, recs: seq<Accepted>): Table {
    if recs == [] then t
    else UpdateRow(UpdateRows(t, cols, recs[..|recs| - 1]), cols, recs[|recs| - 1])
  }

  function BulkUpsert(t: Table, recs: seq<Accepted>): Written {
    var existing, cols := Existing(t, recs), AllColumns(recs);
    var ins, upd := ToInsert(existing, recs), ToUpdate(existing, recs);
    Written(UpdateRows(InsertRows(t, cols, ins), cols, upd), |ins|, |upd|)
  }

  /** Two results one after the other. */
  function Then(first: Written, rest: Written): Written {
    Written(rest.table, first.inserted + rest.inserted, first.updated + rest.updated)
  }

  /** What has been written, and the records still in the bulk buffer. */
  datatype Buffered = Buffered(done: Written, buffer: seq<Accepted>)

  function Flush(b: Buffered): Buffered {
    Buffered(Then(b.done, BulkUpsert(b.done.table, b.buffer)), [])
  }

  /** Records go into the buffer one by one; it is flushed whenever it reaches `size`. */
  function Feed(b: Buffered, a: Accepted, size: nat): Buffered {
    var b' := b.(buffer := b.buffer + [a]);
    if |b'.buffer| >= size then Flush(b') else b'
  }

  function FeedAll(t: Table, recs: seq<Accepted>, size: nat): Buffered {
    if recs == [] then Buffered(Written(t, 0, 0), [])
    else Feed(FeedAll(t, recs[..|recs| - 1], size), recs[|recs| - 1], size)
  }

  function FlushRest(b: Buffered): Buffered {
    if b.buffer == [] then b else Flush(b)
  }

  /** A page on the batch path: fed through the buffer, which is flushed once more at the end. */
  function BulkAll(t: Table, recs: seq<Accepted>, size: nat): Written {
    FlushRest(FeedAll(t, recs, size)).done
  }

  // ---------------------------------------------------------------- methods

  /** `_upsert_record`, with its three results. */
  method UpsertRecord(before: Table, a: Accepted)
    returns (table: Table, inserted: nat, updated: nat, resurrected: nat)
    ensures Written(table, inserted, updated) == Upsert(before, a)
    ensures resurrected == if a.id in before && before[a.id].deleted then 1 else 0
  {
    table := before;
    if a.id !in table {
      table := table[a.id := Row(a.record, RawHash(a.record), false)];
      return table, 1, 0, 0;
    }
    resurrected := if table[a.id].deleted then 1 else 0;
    if table[a.id].hash != RawHash(a.record) {
      table := table[a.id := Row(a.record, RawHash(a.record), false)];
      return table, 0, 1, resurrected;
    }
    table := table[a.id := table[a.id].(deleted := false)];
    return table, 0, 0, resurrected;
  }

  /** The union of all column names. */
  method CollectColumns(recs: seq<Accepted>) returns (cols: set<string>)
    ensures cols == AllColumns(recs)
  {
    cols := {};
    var i := 0;
    while i < |recs|
      invariant 0 <= i <= |recs| && cols == AllColumns(recs[..i])
    {
      assert recs[..i + 1][..i] == recs[..i];
      cols := cols + recs[i].record.Keys;
      i := i + 1;
    }
    assert recs[..i] == recs;
  }

  method Partition(existing: map<string, Digest>, recs: seq<Accepted>)
    returns (toInsert: seq<Accepted>, toUpdate: seq<Accepted>)
    ensures toInsert == ToInsert(existing, recs) && toUpdate == ToUpdate(existing, recs)
  {
    toInsert, toUpdate := [], [];
    var i := 0;
    while i < |recs|
      invariant 0 <= i <= |recs|
      invariant toInsert == ToInsert(existing, recs[..i]) && toUpdate == ToUpdate(existing, recs[..i])
    {
      assert recs[..i + 1][..i] == recs[..i];
      if recs[i].id !in existing {
        toInsert := toInsert + [recs[i]];
      } else if existing[recs[i].id] != RawHash(recs[i].record) {
        toUpdate := toUpdate + [recs[i]];
      }
      i := i + 1;
    }
    assert recs[..i] == recs;
  }

  /** `bulk_upsert_records`: the hashes are read first, then rows are inserted, then updated one by one. */
  method BulkUpsertRecords(before: Table, recs: seq<Accepted>) returns (table: Table, inserted: nat, updated: nat)
    ensures Written(table, inserted, updated) == BulkUpsert(before, recs)
  {
    var existing := Existing(before, recs);
    var cols := CollectColumns(recs);
    var toInsert, toUpdate := Partition(existing, recs);
    table := InsertRows(before, cols, toInsert);
    inserted := |toInsert|;
    ghost var afterInsert := table;
    updated := 0;
    while updated < |toUpdate|
      invariant 0 <= updated <= |toUpdate|
      invariant table == UpdateRows(afterInsert, cols, toUpdate[..updated])
    {
      assert toUpdate[..updated + 1][..updated] == toUpdate[..updated];
      table := UpdateRow(table, cols, toUpdate[updated]);
      updated := updated + 1;
    }
    assert toUpdate[..updated] == toUpdate;
  }
}
