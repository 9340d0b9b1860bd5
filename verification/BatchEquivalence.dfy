/** When writing records in batches has the same effect as writing them one at a time. */
module BatchEquivalence {
  import opened SourceTable
  import opened BatchRows

  /** All records have the columns `cols`, and the rows they meet have no others. */
  ghost predicate Uniform(t: Table, recs: seq<Accepted>, cols: set<string>) {
    forall i :: 0 <= i < |recs| ==>
      recs[i].record.Keys == cols && (recs[i].id in t ==> t[recs[i].id].data.Keys <= cols)
  }

  /** The batch path seen record by record: like an upsert, except that `_deleted` stays as it is. */
  ghost function BatchStep(t: Table, a: Accepted): Written {
    if a.id !in t then
      Written(t[a.id := Row(a.record, RawHash(a.record), false)], 1, 0)
    else if t[a.id].hash != RawHash(a.record) then
      Written(t[a.id := Row(a.record, RawHash(a.record), t[a.id].deleted)], 0, 1)
    else
      Written(t, 0, 0)
  }

  ghost function BatchSteps(t: Table, recs: seq<Accepted>): Written {
    if recs == [] then Written(t, 0, 0)
    else
      var n := |recs| - 1;
      var before := BatchSteps(t, recs[..n]);
      var after := BatchStep(before.table, recs[n]);
      Written(after.table, before.inserted + after.inserted, before.updated + after.updated)
  }

  lemma {:induction false} BatchStepsKeys(t: Table, recs: seq<Accepted>)
    ensures forall id :: id in BatchSteps(t, recs).table <==> id in t || Mentions(recs, id)
    ensures forall id :: id in t && !Mentions(recs, id) ==> BatchSteps(t, recs).table[id] == t[id]
  {
    if recs != [] {
      BatchStepsKeys(t, recs[..|recs| - 1]);
      MentionsPrefix(recs);
    }
  }

  // ---------------------------------------------------------------- one batch is its steps

  lemma {:induction false} ColumnsOf(recs: seq<Accepted>, cols: set<string>)
    requires recs != [] && forall i :: 0 <= i < |recs| ==> recs[i].record.Keys == cols
    ensures AllColumns(recs) == cols
  {
    var n := |recs| - 1;
    assert recs[n].record.Keys == cols;
    if n > 0 { ColumnsOf(recs[..n], cols); }
  }

  lemma {:induction false} UpdateRowsElsewhere(t: Table, cols: set<string>, recs: seq<Accepted>, id: string, row: Row)
    requires !Mentions(recs, id)
    ensures UpdateRows(t[id := row], cols, recs) == UpdateRows(t, cols, recs)[id := row]
  {
    if recs != [] {
      var n := |recs| - 1;
      MentionsPrefix(recs);
      UpdateRowsElsewhere(t, cols, recs[..n], id, row);
      var u, u' := UpdateRows(t, cols, recs[..n]), UpdateRows(t[id := row], cols, recs[..n]);
      assert recs[n].id != id && u' == u[id := row];
      assert UpdateRow(u', cols, recs[n]) == UpdateRow(u, cols, recs[n])[id := row];
    }
  }

  /** `existing` is what the first query of the batch returned. */
  ghost predicate Snapshot(t: Table, recs: seq<Accepted>, existing: map<string, Digest>) {
    forall i :: 0 <= i < |recs| ==>
      && (recs[i].id in existing <==> recs[i].id in t)
      && (recs[i].id in t ==> existing[recs[i].id] == t[recs[i].id].hash)
  }

  /** The two statements of a batch with the snapshot and the column list given. */
  ghost function Batch(t: Table, recs: seq<Accepted>, existing: map<string, Digest>, cols: set<string>): Written {
    var ins, upd := ToInsert(existing, recs), ToUpdate(existing, recs);
    Written(UpdateRows(InsertRows(t, cols, ins), cols, upd), |ins|, |upd|)
  }

  lemma {:induction false} BatchIsItsSteps(t: Table, recs: seq<Accepted>, existing: map<string, Digest>, cols: set<string>)
    requires DistinctIds(recs) && Uniform(t, recs, cols) && Snapshot(t, recs, existing)
    ensures Batch(t, recs, existing, cols) == BatchSteps(t, recs)
  {
    if recs != [] {
      var n := |recs| - 1;
      BatchIsItsSteps(t, recs[..n], existing, cols);
      BatchLast(t, recs, existing, cols);
    }
  }

  /** The last record of a batch adds one step. */
  lemma {:induction false} BatchLast(t: Table, recs: seq<Accepted>, existing: map<string, Digest>, cols: set<string>)
    requires recs != [] && Uniform(t, recs, cols) && Snapshot(t, recs, existing)
    requires !Mentions(recs[..|recs| - 1], recs[|recs| - 1].id)
    requires Batch(t, recs[..|recs| - 1], existing, cols) == BatchSteps(t, recs[..|recs| - 1])
    ensures var before := BatchSteps(t, recs[..|recs| - 1]);
      Batch(t, recs, existing, cols) == Then(before, BatchStep(before.table, recs[|recs| - 1]))
  {
    var n := |recs| - 1;
    BatchStepsKeys(t, recs[..n]);
    assert recs[n].record.Keys == cols && Bound(cols, recs[n].record) == recs[n].record;
    if recs[n].id !in t {
      BatchInsertLast(t, recs, existing, cols);
    } else {
      BatchKnownLast(t, recs, existing, cols);
    }
  }

  lemma {:induction false} BatchInsertLast(t: Table, recs: seq<Accepted>, existing: map<string, Digest>, cols: set<string>)
    requires recs != []
    requires var n := |recs| - 1;
      recs[n].id !in existing && !Mentions(recs[..n], recs[n].id) &&
      recs[n].id !in Batch(t, recs[..n], existing, cols).table
    ensures var n := |recs| - 1;
      var before, a := Batch(t, recs[..n], existing, cols), recs[n];
      Batch(t, recs, existing, cols) ==
      Written(before.table[a.id := Row(Bound(cols, a.record), RawHash(a.record), false)], before.inserted + 1, before.updated)
  {
    var n := |recs| - 1;
    var a, ins, upd := recs[n], ToInsert(existing, recs[..n]), ToUpdate(existing, recs[..n]);
    var inserted := InsertRows(t, cols, ins);
    NotUpdated(existing, recs[..n], a.id);
    UpdateRowsGrow(inserted, cols, upd);
    UpdateRowsElsewhere(inserted, cols, upd, a.id, Row(Bound(cols, a.record), RawHash(a.record), false));
    assert (ins + [a])[..|ins|] == ins;
    assert ToInsert(existing, recs) == ins + [a] && ToUpdate(existing, recs) == upd;
  }

  lemma {:induction false} BatchKnownLast(t: Table, recs: seq<Accepted>, existing: map<string, Digest>, cols: set<string>)
    requires recs != []
    requires var n := |recs| - 1;
      && recs[n].id in t && recs[n].id in existing && existing[recs[n].id] == t[recs[n].id].hash
      && recs[n].record.Keys == cols && t[recs[n].id].data.Keys <= cols
    requires var n := |recs| - 1;
      var before := Batch(t, recs[..n], existing, cols).table;
      recs[n].id in before && before[recs[n].id] == t[recs[n].id]
    ensures var n := |recs| - 1;
      var before := Batch(t, recs[..n], existing, cols);
      var step := BatchStep(before.table, recs[n]);
      Batch(t, recs, existing, cols) ==
      Written(step.table, before.inserted + step.inserted, before.updated + step.updated)
  {
    var n := |recs| - 1;
    var a, upd := recs[n], ToUpdate(existing, recs[..n]);
    assert Bound(cols, a.record) == a.record;
    assert t[a.id].data + a.record == a.record;
    assert (upd + [a])[..|upd|] == upd;
    assert ToInsert(existing, recs) == ToInsert(existing, recs[..n]);
    assert ToUpdate(existing, recs) == if t[a.id].hash != RawHash(a.record) then upd + [a] else upd;
  }

  lemma {:induction false} BulkUpsertIsItsSteps(t: Table, recs: seq<Accepted>, cols: set<string>)
    requires recs != [] && DistinctIds(recs) && Uniform(t, recs, cols)
    ensures BulkUpsert(t, recs) == BatchSteps(t, recs)
  {
    ColumnsOf(recs, cols);
    BatchIsItsSteps(t, recs, Existing(t, recs), cols);
  }

  // ---------------------------------------------------------------- any chunk size

  lemma {:induction false} BatchStepsAppend(t: Table, a: seq<Accepted>, b: seq<Accepted>)
    ensures var first := BatchSteps(t, a);
      BatchSteps(t, a + b) == Then(first, BatchSteps(first.table, b))
    decreases |b|
  {
    var first := BatchSteps(t, a);
    if b == [] {
      assert a + b == a;
    } else {
      var n := |b| - 1;
      var middle := BatchSteps(first.table, b[..n]);
      BatchStepsAppend(t, a, b[..n]);
      AppendLast(a, b);
    }
  }

  lemma {:induction false} BatchStepsSplit(t: Table, recs: seq<Accepted>, k: nat)
    requires k <= |recs|
    ensures var first := BatchSteps(t, recs[..k]);
      BatchSteps(t, recs) == Then(first, BatchSteps(first.table, recs[k..]))
  {
    var a, b := recs[..k], recs[k..];
    BatchStepsAppend(t, a, b);
    assert recs == a + b;
  }

  lemma {:induction false} AppendLast(a: seq<Accepted>, b: seq<Accepted>)
    requires b != []
    ensures var n := |b| - 1; (a + b)[..|a| + n] == a + b[..n] && (a + b)[|a| + n] == b[n]
  {
  }

  lemma {:induction false} RestUniform(t: Table, recs: seq<Accepted>, k: nat, cols: set<string>)
    requires k <= |recs| && DistinctIds(recs) && Uniform(t, recs, cols)
    ensures DistinctIds(recs[k..]) && Uniform(BatchSteps(t, recs[..k]).table, recs[k..], cols)
  {
    var rest, after := recs[k..], BatchSteps(t, recs[..k]).table;
    BatchStepsKeys(t, recs[..k]);
    forall i | 0 <= i < |rest|
      ensures rest[i].record.Keys == cols && (rest[i].id in after ==> after[rest[i].id].data.Keys <= cols)
    {
      assert rest[i] == recs[k + i];
      assert !Mentions(recs[..k], rest[i].id);
    }
  }

  /** Flushing the records from `f` on completes the steps. */
  lemma {:induction false} FlushIsSteps(t: Table, recs: seq<Accepted>, f: nat, cols: set<string>)
    requires f < |recs| && DistinctIds(recs) && Uniform(t, recs, cols)
    ensures Flush(Buffered(BatchSteps(t, recs[..f]), recs[f..])) == Buffered(BatchSteps(t, recs), [])
  {
    var first := BatchSteps(t, recs[..f]);
    RestUniform(t, recs, f, cols);
    BulkUpsertIsItsSteps(first.table, recs[f..], cols);
    BatchStepsSplit(t, recs, f);
  }

  /** The buffer holds the last records; all before them have been written. */
  ghost predicate HoldsTail(t: Table, recs: seq<Accepted>, b: Buffered) {
    var f := |recs| - |b.buffer|;
    f >= 0 && b == Buffered(BatchSteps(t, recs[..f]), recs[f..])
  }

  lemma {:induction false} FlushHoldsTail(t: Table, recs: seq<Accepted>, f: nat, cols: set<string>)
    requires f < |recs| && DistinctIds(recs) && Uniform(t, recs, cols)
    ensures HoldsTail(t, recs, Flush(Buffered(BatchSteps(t, recs[..f]), recs[f..])))
  {
    FlushIsSteps(t, recs, f, cols);
    var none := |recs|;
    assert recs[..none] == recs && recs[none..] == [];
  }

  lemma {:induction false} BufferOne(recs: seq<Accepted>, f: nat)
    requires f < |recs|
    ensures var n := |recs| - 1; recs[..n][..f] == recs[..f] && recs[..n][f..] + [recs[n]] == recs[f..]
  {
  }

  lemma {:induction false} FeedStep(t: Table, recs: seq<Accepted>, b: Buffered, size: nat, cols: set<string>)
    requires recs != [] && DistinctIds(recs) && Uniform(t, recs, cols)
    requires HoldsTail(t, recs[..|recs| - 1], b)
    ensures HoldsTail(t, recs, Feed(b, recs[|recs| - 1], size))
  {
    var f := |recs| - 1 - |b.buffer|;
    BufferOne(recs, f);
    FlushHoldsTail(t, recs, f, cols);
  }

  lemma {:induction false} FeedIsSteps(t: Table, recs: seq<Accepted>, size: nat, cols: set<string>)
    requires DistinctIds(recs) && Uniform(t, recs, cols)
    ensures HoldsTail(t, recs, FeedAll(t, recs, size))
  {
    if recs != [] {
      FeedIsSteps(t, recs[..|recs| - 1], size, cols);
      FeedStep(t, recs, FeedAll(t, recs[..|recs| - 1], size), size, cols);
    }
  }

  lemma {:induction false} ChunksAreSteps(t: Table, recs: seq<Accepted>, size: nat, cols: set<string>)
    requires DistinctIds(recs) && Uniform(t, recs, cols)
    ensures BulkAll(t, recs, size) == BatchSteps(t, recs)
  {
    FeedIsSteps(t, recs, size, cols);
    FlushRestIsSteps(t, recs, FeedAll(t, recs, size), cols);
  }

  lemma {:induction false} FlushRestIsSteps(t: Table, recs: seq<Accepted>, b: Buffered, cols: set<string>)
    requires DistinctIds(recs) && Uniform(t, recs, cols) && HoldsTail(t, recs, b)
    ensures FlushRest(b).done == BatchSteps(t, recs)
  {
    if b.buffer == [] {
      assert recs[..|recs|] == recs;
    } else {
      var f := |recs| - |b.buffer|;
      assert b == Buffered(BatchSteps(t, recs[..f]), recs[f..]);
      FlushIsSteps(t, recs, f, cols);
    }
  }

  // ---------------------------------------------------------------- against the single-record path

  /** Some record meets a tombstoned row. */
  ghost predicate MeetsTombstone(t: Table, recs: seq<Accepted>) {
    exists i :: 0 <= i < |recs| && recs[i].id in t && t[recs[i].id].deleted
  }

  lemma {:induction false} StepsAgainstUpserts(t: Table, recs: seq<Accepted>)
    requires DistinctIds(recs)
    ensures BatchSteps(t, recs).inserted == UpsertAll(t, recs).inserted
    ensures BatchSteps(t, recs).updated == UpsertAll(t, recs).updated
    ensures !MeetsTombstone(t, recs) ==> BatchSteps(t, recs).table == UpsertAll(t, recs).table
  {
    if recs != [] {
      var n := |recs| - 1;
      StepsAgainstUpserts(t, recs[..n]);
      UpsertAllKeys(t, recs[..n]);
      BatchStepsKeys(t, recs[..n]);
      StepAgainstUpsert(t, BatchSteps(t, recs[..n]).table, UpsertAll(t, recs[..n]).table, recs[n]);
    }
  }

  /** One record, met by both paths with its row as it was at the start. */
  lemma {:induction false} StepAgainstUpsert(t: Table, b: Table, u: Table, a: Accepted)
    requires (a.id in b <==> a.id in t) && (a.id in u <==> a.id in t)
    requires a.id in t ==> b[a.id] == t[a.id] && u[a.id] == t[a.id]
    ensures BatchStep(b, a).inserted == Upsert(u, a).inserted && BatchStep(b, a).updated == Upsert(u, a).updated
    ensures b == u && (a.id in t ==> !t[a.id].deleted) ==> BatchStep(b, a).table == Upsert(u, a).table
  {
    if a.id in t && !t[a.id].deleted {
      assert t[a.id].(deleted := false) == t[a.id];
      assert u[a.id := u[a.id]] == u;
    }
  }

  lemma {:induction false} StepsKeepTombstone(t: Table, recs: seq<Accepted>, id: string)
    requires id in t && t[id].deleted
    ensures id in BatchSteps(t, recs).table && BatchSteps(t, recs).table[id].deleted
  {
    if recs != [] { StepsKeepTombstone(t, recs[..|recs| - 1], id); }
  }

  /** Whatever the chunk size, the batch path gives the same counts as the single-record path, and the
      same rows exactly when no record meets a tombstoned row. */
  lemma {:induction false} BatchSizeIndependence(t: Table, recs: seq<Accepted>, size: nat, cols: set<string>)
    requires DistinctIds(recs) && Uniform(t, recs, cols)
    ensures BulkAll(t, recs, size).inserted == UpsertAll(t, recs).inserted
    ensures BulkAll(t, recs, size).updated == UpsertAll(t, recs).updated
    ensures BulkAll(t, recs, size).table == UpsertAll(t, recs).table <==> !MeetsTombstone(t, recs)
  {
    ChunksAreSteps(t, recs, size, cols);
    StepsAgainstUpserts(t, recs);
    if i :| 0 <= i < |recs| && recs[i].id in t && t[recs[i].id].deleted {
      StepsKeepTombstone(t, recs, recs[i].id);
      UpsertAllRow(t, recs, i);
    }
  }
}
