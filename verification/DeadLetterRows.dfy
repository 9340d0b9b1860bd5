/** What a move and a replay call make of each single row, letter and count. */
module DeadLetterRows {
  import opened Wrappers
  import opened WritebackDeadLetter

  // ---------------------------------------------------------------- a move

  /** A move marks the rows with this id or cluster id, unless they have nothing to do or are marked already, leaves
      every other row alone, and adds a letter behind the others. */
  lemma {:induction false} MoveDecides(q: Queue, id: string, action: string, r: nat)
    requires r < |q.delta|
    ensures var q', row := Move(q, id, action), q.delta[r];
      && |q'.delta| == |q.delta| && q'.letters == q.letters + [Letter(id, action, false, 0)]
      && q'.delta[r] == (if (row.externalId == Some(id) || row.clusterId == Some(id)) && row.action != "noop"
                         then DeltaRow(row.externalId, row.clusterId, "dead_lettered") else row)
  {
  }

  // ---------------------------------------------------------------- which letters a call selects

  ghost function OlderReplayable(letters: seq<Letter>, d: nat): set<nat>
    requires d <= |letters|
  {
    set e | 0 <= e < d && letters[e].requeueCount < 3 && !letters[e].requeued
  }

  lemma {:induction false} SelectedCount(letters: seq<Letter>, limit: nat)
    ensures var older := |OlderReplayable(letters, |letters|)|;
      |Select(letters, limit)| == if older < limit then older else limit
  {
    if letters != [] {
      var n := |letters| - 1;
      SelectedCount(letters[..n], limit);
      assert OlderReplayable(letters[..n], n) == OlderReplayable(letters, n);
      assert OlderReplayable(letters, |letters|) ==
        OlderReplayable(letters, n) + if letters[n].requeueCount < 3 && !letters[n].requeued then {n} else {};
    }
  }

  /** A letter is selected if and only if it was not requeued, fewer than three times before, and fewer than `limit`
      older ones are such. */
  lemma {:induction false} SelectedIff(letters: seq<Letter>, limit: nat, d: nat)
    requires d < |letters|
    ensures d in Select(letters, limit) <==>
      letters[d].requeueCount < 3 && !letters[d].requeued && |OlderReplayable(letters, d)| < limit
  {
    var n := |letters| - 1;
    if d < n {
      SelectedIff(letters[..n], limit, d);
      assert OlderReplayable(letters[..n], d) == OlderReplayable(letters, d);
    } else {
      SelectedCount(letters[..n], limit);
      assert OlderReplayable(letters[..n], n) == OlderReplayable(letters, n);
    }
  }

  // ---------------------------------------------------------------- a replay call

  /** Turn `i` commits, its letter bears the row's id or cluster id, and its action is not 'dead_lettered'. */
  ghost predicate Restores(q: Queue, ids: seq<nat>, verdicts: seq<Verdict>, row: DeltaRow, i: int) {
    && 0 <= i < |ids| && i < |verdicts| && ids[i] < |q.letters| && verdicts[i] == Commits
    && var l := q.letters[ids[i]];
       (row.externalId == Some(l.externalId) || row.clusterId == Some(l.externalId)) && l.errorClass != "dead_lettered"
  }

  ghost predicate RestoresFirst(q: Queue, ids: seq<nat>, verdicts: seq<Verdict>, row: DeltaRow, i: int) {
    Restores(q, ids, verdicts, row, i) && forall j :: 0 <= j < i ==> !Restores(q, ids, verdicts, row, j)
  }

  ghost predicate NoneRestores(q: Queue, ids: seq<nat>, verdicts: seq<Verdict>, row: DeltaRow) {
    forall i :: 0 <= i < |ids| ==> !Restores(q, ids, verdicts, row, i)
  }

  /** The stored action, and "update" for an empty one. */
  ghost predicate Restored(row: DeltaRow, row': DeltaRow, l: Letter) {
    row' == DeltaRow(row.externalId, row.clusterId, if |l.errorClass| == 0 then "update" else l.errorClass)
  }

  /** A row that was not dead-lettered, or whose letters are not among those committed, is as it was; any other has the
      action of the first committed letter that restores it. */
  ghost predicate Decided(q: Queue, ids: seq<nat>, verdicts: seq<Verdict>, row: DeltaRow, row': DeltaRow)
    requires forall i :: 0 <= i < |ids| ==> ids[i] < |q.letters|
  {
    if row.action != "dead_lettered" || NoneRestores(q, ids, verdicts, row) then row' == row
    else exists i :: RestoresFirst(q, ids, verdicts, row, i) && Restored(row, row', q.letters[ids[i]])
  }

  ghost predicate Turns(q: Queue, ids: seq<nat>, verdicts: seq<Verdict>) {
    |ids| == |verdicts| && forall i :: 0 <= i < |ids| ==> ids[i] < |q.letters|
  }

  lemma {:induction false} RestoresPrefix(q: Queue, ids: seq<nat>, verdicts: seq<Verdict>, row: DeltaRow, n: nat)
    requires n <= |ids| == |verdicts|
    ensures forall i :: 0 <= i < n ==> (Restores(q, ids[..n], verdicts[..n], row, i) <==> Restores(q, ids, verdicts, row, i))
  {
  }

  /** What the next committed turn, that of `l`, makes of a row. */
  lemma {:induction false} NextTurn(before: Queue, d: nat, r: nat)
    requires d < |before.letters| && r < |before.delta|
    ensures var l, row, row' := before.letters[d], before.delta[r], ReplayLetter(before, d).delta[r];
      && (row.action == "dead_lettered" && (row.externalId == Some(l.externalId) || row.clusterId == Some(l.externalId)) ==>
            Restored(row, row', l))
      && (row.action != "dead_lettered" || !(row.externalId == Some(l.externalId) || row.clusterId == Some(l.externalId)) ==>
            row' == row)
  {
  }

  /** Whatever the verdicts: each row ends as its first committed letter says. */
  lemma {:induction false} ReplayDecides(q: Queue, ids: seq<nat>, verdicts: seq<Verdict>, r: nat)
    requires Turns(q, ids, verdicts) && r < |q.delta|
    ensures var q' := ReplayTurns(q, ids, verdicts).queue;
      |q'.delta| == |q.delta| && Decided(q, ids, verdicts, q.delta[r], q'.delta[r])
  {
    if ids != [] {
      var n := |ids| - 1;
      ReplayDecides(q, ids[..n], verdicts[..n], r);
      TurnsKeepIdentities(q, ids[..n], verdicts[..n]);
      RestoresPrefix(q, ids, verdicts, q.delta[r], n);
      DecidedNext(q, ids, verdicts, r, ReplayTurns(q, ids[..n], verdicts[..n]).queue);
    }
  }

  lemma {:induction false} DecidedNext(q: Queue, ids: seq<nat>, verdicts: seq<Verdict>, r: nat, before: Queue)
    requires Turns(q, ids, verdicts) && ids != [] && r < |q.delta| && SameIdentities(q, before)
    requires var n := |ids| - 1; Decided(q, ids[..n], verdicts[..n], q.delta[r], before.delta[r])
    requires var n := |ids| - 1; forall i :: 0 <= i < n ==>
      (Restores(q, ids[..n], verdicts[..n], q.delta[r], i) <==> Restores(q, ids, verdicts, q.delta[r], i))
    ensures var after := AfterTurn(Summary(before, 0, 0), ids[|ids| - 1], verdicts[|ids| - 1]).queue;
      |after.delta| == |q.delta| && Decided(q, ids, verdicts, q.delta[r], after.delta[r])
  {
    var n := |ids| - 1;
    var row, d := q.delta[r], ids[n];
    NextTurn(before, d, r);
    if row.action == "dead_lettered" {
      if NoneRestores(q, ids[..n], verdicts[..n], row) {
        if Restores(q, ids, verdicts, row, n) { assert RestoresFirst(q, ids, verdicts, row, n); }
      } else {
        var i :| RestoresFirst(q, ids[..n], verdicts[..n], row, i) && Restored(row, before.delta[r], q.letters[ids[..n][i]]);
        assert RestoresFirst(q, ids, verdicts, row, i);
      }
    }
  }

  // ---------------------------------------------------------------- letters and counts

  ghost function TurnsWith(verdicts: seq<Verdict>, v: Verdict): set<nat> {
    set i | 0 <= i < |verdicts| && verdicts[i] == v
  }

  lemma {:induction false} TurnsWithLast(verdicts: seq<Verdict>, v: Verdict)
    requires verdicts != []
    ensures var n := |verdicts| - 1;
      TurnsWith(verdicts, v) == TurnsWith(verdicts[..n], v) + if verdicts[n] == v then {n} else {}
  {
  }

  /** The two counts are those of the committed and of the failed turns. */
  lemma {:induction false} ReplayCounts(q: Queue, ids: seq<nat>, verdicts: seq<Verdict>)
    requires Turns(q, ids, verdicts)
    ensures var s := ReplayTurns(q, ids, verdicts);
      s.replayed == |TurnsWith(verdicts, Commits)| && s.errors == |TurnsWith(verdicts, Fails)|
  {
    if ids != [] {
      ReplayCounts(q, ids[..|ids| - 1], verdicts[..|ids| - 1]);
      TurnsWithLast(verdicts, Commits);
      TurnsWithLast(verdicts, Fails);
    }
  }

  ghost predicate CommittedIn(ids: seq<nat>, verdicts: seq<Verdict>, d: nat) {
    exists i :: 0 <= i < |ids| && i < |verdicts| && ids[i] == d && verdicts[i] == Commits
  }

  /** A letter whose turn commits is requeued, once more than before; every other letter is as it was. */
  lemma {:induction false} ReplayRequeues(q: Queue, ids: seq<nat>, verdicts: seq<Verdict>, d: nat)
    requires Turns(q, ids, verdicts) && d < |q.letters| && forall i, j :: 0 <= i < j < |ids| ==> ids[i] != ids[j]
    ensures var l, letters' := q.letters[d], ReplayTurns(q, ids, verdicts).queue.letters;
      && |letters'| == |q.letters|
      && letters'[d] == (if CommittedIn(ids, verdicts, d)
                         then Letter(l.externalId, l.errorClass, true, l.requeueCount + 1) else l)
  {
    if ids != [] {
      var n := |ids| - 1;
      ReplayRequeues(q, ids[..n], verdicts[..n], d);
      if i :| 0 <= i < n && ids[..n][i] == d && verdicts[..n][i] == Commits { assert ids[i] == d && verdicts[i] == Commits; }
      if i :| 0 <= i < |ids| && ids[i] == d && verdicts[i] == Commits {
        assert i < n ==> ids[..n][i] == d && verdicts[..n][i] == Commits;
      }
    }
  }
}
