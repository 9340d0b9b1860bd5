/** Moving failed writeback rows to the dead-letter table and replaying them:
    engine/src/inandout/deadletter/writeback.py. */
module WritebackDeadLetter {
  import opened Wrappers

  const DEAD := "dead_lettered"
  const NOOP := "noop"
  const MAX_REQUEUE := 3

  datatype DeltaRow = DeltaRow(externalId: Option<string>, clusterId: Option<string>, action: string)

  /** A dead-letter row; its id is its position. `errorClass` stores the action. */
  datatype Letter = Letter(externalId: string, errorClass: string, requeued: bool, requeueCount: nat)

  datatype Queue = Queue(delta: seq<DeltaRow>, letters: seq<Letter>)

  /** `external_id = %s OR _cluster_id = %s`; a NULL matches nothing. */
  predicate Matches(r: DeltaRow, id: string) {
    r.externalId == Some(id) || r.clusterId == Some(id)
  }

  function MarkRow(r: DeltaRow, id: string): DeltaRow {
    if Matches(r, id) && r.action != NOOP && r.action != DEAD then r.(action := DEAD) else r
  }

  function UnmarkRow(r: DeltaRow, id: string, action: string): DeltaRow {
    if Matches(r, id) && r.action == DEAD then r.(action := action) else r
  }

  function Mark(delta: seq<DeltaRow>, id: string): (r: seq<DeltaRow>)
    ensures |r| == |delta|
  {
    seq(|delta|, i requires 0 <= i < |delta| => MarkRow(delta[i], id))
  }

  function Unmark(delta: seq<DeltaRow>, id: string, action: string): (r: seq<DeltaRow>)
    ensures |r| == |delta|
  {
    seq(|delta|, i requires 0 <= i < |delta| => UnmarkRow(delta[i], id, action))
  }

  /** `move_to_dead_letter` when the policy accepts the row and the transaction commits. */
  function Move(q: Queue, id: string, action: string): Queue {
    Queue(Mark(q.delta, id), q.letters + [Letter(id, action, false, 0)])
  }

  /** `action or "update"`. */
  function ReplayAction(errorClass: string): string {
    if errorClass == "" then "update" else errorClass
  }

  /** One committed turn of the replay loop. The UPDATE is by id only. */
  function ReplayLetter(q: Queue, d: nat): Queue
    requires d < |q.letters|
  {
    var l := q.letters[d];
    Queue(Unmark(q.delta, l.externalId, ReplayAction(l.errorClass)),
          q.letters[d := l.(requeued := true, requeueCount := l.requeueCount + 1)])
  }

  predicate Replayable(l: Letter) {
    l.requeueCount < MAX_REQUEUE && !l.requeued
  }

  /** The ids the first query returns: the oldest `limit` replayable rows. */
  function Select(letters: seq<Letter>, limit: nat): (ids: seq<nat>)
    ensures forall i :: 0 <= i < |ids| ==> ids[i] < |letters| && Replayable(letters[ids[i]])
    ensures forall i, j :: 0 <= i < j < |ids| ==> ids[i] < ids[j]
    ensures |ids| <= limit
  {
    if letters == [] then []
    else
      var n := |letters| - 1;
      var before := Select(letters[..n], limit);
      if |before| < limit && Replayable(letters[n]) then before + [n] else before
  }

  /** Per selected row: the policy declines, the transaction fails, or it commits. */
  datatype Verdict = Declined | Fails | Commits

  datatype Summary = Summary(queue: Queue, replayed: nat, errors: nat)

  function AfterTurn(s: Summary, d: nat, verdict: Verdict): Summary
    requires d < |s.queue.letters|
  {
    match verdict
    case Declined => s
    case Fails => s.(errors := s.errors + 1)
    case Commits => Summary(ReplayLetter(s.queue, d), s.replayed + 1, s.errors)
  }

  function ReplayTurns(q: Queue, ids: seq<nat>, verdicts: seq<Verdict>): Summary
    requires |ids| == |verdicts| && forall i :: 0 <= i < |ids| ==> ids[i] < |q.letters|
    ensures |ReplayTurns(q, ids, verdicts).queue.letters| == |q.letters|
  {
    if ids == [] then Summary(q, 0, 0)
    else
      var n := |ids| - 1;
      AfterTurn(ReplayTurns(q, ids[..n], verdicts[..n]), ids[n], verdicts[n])
  }

  function Verdicts(ids: seq<nat>, verdict: nat -> Verdict): (vs: seq<Verdict>)
    ensures |vs| == |ids| && forall i :: 0 <= i < |ids| ==> vs[i] == verdict(ids[i])
  {
    seq(|ids|, i requires 0 <= i < |ids| => verdict(ids[i]))
  }

  lemma {:induction false} OneMoreTurn(q: Queue, ids: seq<nat>, verdicts: seq<Verdict>, i: nat)
    requires i < |ids| == |verdicts| && forall k :: 0 <= k < |ids| ==> ids[k] < |q.letters|
    ensures ReplayTurns(q, ids[..i + 1], verdicts[..i + 1]) ==
      AfterTurn(ReplayTurns(q, ids[..i], verdicts[..i]), ids[i], verdicts[i])
  {
    assert ids[..i + 1][..i] == ids[..i] && verdicts[..i + 1][..i] == verdicts[..i];
  }

  class Tables {
    var delta: seq<DeltaRow>
    var letters: seq<Letter>

    ghost function Now(): Queue
      reads this
    {
      Queue(delta, letters)
    }

    /** A declining policy and a failing statement both leave everything as it was. */
    method MoveToDeadLetter(id: string, action: string, accepted: bool, fails: bool)
      modifies this
      ensures Now() == if accepted && !fails then Move(old(Now()), id, action) else old(Now())
    {
      if !accepted || fails { return; }
      letters := letters + [Letter(id, action, false, 0)];
      delta := Mark(delta, id);
    }

    /** The transaction of one turn. */
    method ReplayRow(d: nat)
      requires d < |letters|
      modifies this
      ensures Now() == ReplayLetter(old(Now()), d)
    {
      var l := letters[d];
      letters := letters[d := l.(requeued := true, requeueCount := l.requeueCount + 1)];
      delta := Unmark(delta, l.externalId, ReplayAction(l.errorClass));
    }

    /** One turn of the loop and what it adds to the counts. */
    method TakeTurn(d: nat, verdict: Verdict, ghost replayed: nat, ghost errors: nat) returns (done: nat, failed: nat)
      requires d < |letters|
      modifies this
      ensures |letters| == |old(letters)|
      ensures Summary(Now(), replayed + done, errors + failed) ==
        AfterTurn(Summary(old(Now()), replayed, errors), d, verdict)
    {
      done, failed := 0, 0;
      match verdict {
        case Declined =>
        case Fails => failed := 1;
        case Commits =>
          ReplayRow(d);
          done := 1;
      }
    }

    method ReplayRows(limit: nat, verdict: nat -> Verdict) returns (replayed: nat, errors: nat)
      modifies this
      ensures var ids := Select(old(letters), limit);
        Summary(Now(), replayed, errors) == ReplayTurns(old(Now()), ids, Verdicts(ids, verdict))
    {
      var ids := Select(letters, limit);
      ghost var vs := Verdicts(ids, verdict);
      replayed, errors := 0, 0;
      var i := 0;
      while i < |ids|
        invariant 0 <= i <= |ids| && |letters| == |old(letters)|
        invariant Summary(Now(), replayed, errors) == ReplayTurns(old(Now()), ids[..i], vs[..i])
      {
        OneMoreTurn(old(Now()), ids, vs, i);
        var done, failed := TakeTurn(ids[i], verdict(ids[i]), replayed, errors);
        replayed, errors := replayed + done, errors + failed;
        i := i + 1;
      }
      assert ids[..i] == ids && vs[..i] == vs;
    }
  }

  // ---------------------------------------------------------------- interleaved moves and replays

  /** `pending[c]` are the ids that the replay call `c` has selected and not yet reached. */
  datatype World = World(queue: Queue, pending: map<string, seq<nat>>)

  datatype Step =
    | NewDelta(row: DeltaRow)
    | MoveRow(id: string, action: string)
    | StartReplay(caller: string, limit: nat)
    | Turn(caller: string, verdict: Verdict)

  ghost predicate Enabled(w: World, s: Step) {
    match s
    case NewDelta(row) => row.action != DEAD
    case MoveRow(_, _) => true
    case StartReplay(c, _) => c !in w.pending
    case Turn(c, _) => c in w.pending && (w.pending[c] != [] ==> w.pending[c][0] < |w.queue.letters|)
  }

  /** A call whose list is used up returns. */
  ghost function After(w: World, s: Step): World
    requires Enabled(w, s)
  {
    match s
    case NewDelta(row) => w.(queue := w.queue.(delta := w.queue.delta + [row]))
    case MoveRow(id, action) => w.(queue := Move(w.queue, id, action))
    case StartReplay(c, limit) => w.(pending := w.pending[c := Select(w.queue.letters, limit)])
    case Turn(c, v) =>
      if w.pending[c] == [] then w.(pending := w.pending - {c})
      else World(if v == Commits then ReplayLetter(w.queue, w.pending[c][0]) else w.queue,
                 w.pending[c := w.pending[c][1..]])
  }

  const START := World(Queue([], []), map[])

  /** The states a run goes through from `ws[0]` on and the steps between them. */
  ghost predicate Path(ws: seq<World>, steps: seq<Step>) {
    && |ws| == |steps| + 1
    && forall i :: 0 <= i < |steps| ==> Enabled(ws[i], steps[i]) && ws[i + 1] == After(ws[i], steps[i])
  }

  ghost predicate Run(ws: seq<World>, steps: seq<Step>) {
    Path(ws, steps) && ws[0] == START
  }

  lemma {:induction false} Extend(ws: seq<World>, steps: seq<Step>, s: Step) returns (ws': seq<World>, steps': seq<Step>)
    requires Path(ws, steps) && Enabled(ws[|steps|], s)
    ensures Path(ws', steps') && steps' == steps + [s] && ws' == ws + [After(ws[|steps|], s)]
  {
    ws', steps' := ws + [After(ws[|steps|], s)], steps + [s];
    forall i | 0 <= i < |steps'| ensures Enabled(ws'[i], steps'[i]) && ws'[i + 1] == After(ws'[i], steps'[i]) {
      if i < |steps| { assert steps'[i] == steps[i] && ws'[i] == ws[i] && ws'[i + 1] == ws[i + 1]; }
    }
  }

  /** A path goes on where another one ends. */
  lemma {:induction false} Join(front: seq<World>, steps: seq<Step>, back: seq<World>, more: seq<Step>)
    returns (ws: seq<World>, joined: seq<Step>)
    requires Path(front, steps) && Path(back, more) && front[|steps|] == back[0]
    ensures Path(ws, joined) && ws == front + back[1..] && joined == steps + more
  {
    ws, joined := front + back[1..], steps + more;
    forall i | 0 <= i < |joined| ensures Enabled(ws[i], joined[i]) && ws[i + 1] == After(ws[i], joined[i]) {
      if i < |steps| {
        assert joined[i] == steps[i] && ws[i] == front[i] && ws[i + 1] == front[i + 1];
      } else {
        var k := i - |steps|;
        assert joined[i] == more[k] && ws[i] == back[k] && ws[i + 1] == back[k + 1];
      }
    }
  }

  // ---------------------------------------------------------------- no row is stranded

  /** The letter can be replayed and will then give the row an action other than 'dead_lettered'. */
  ghost predicate Covers(q: Queue, d: int, r: DeltaRow) {
    && 0 <= d < |q.letters| && Matches(r, q.letters[d].externalId)
    && Replayable(q.letters[d]) && q.letters[d].errorClass != DEAD
  }

  ghost predicate HasLetter(q: Queue, r: DeltaRow) {
    exists d :: Covers(q, d, r)
  }

  /** Every dead-lettered delta row still has a letter that brings it back. */
  ghost predicate NoneStranded(q: Queue) {
    forall i :: 0 <= i < |q.delta| && q.delta[i].action == DEAD ==> HasLetter(q, q.delta[i])
  }

  predicate NewlyMarked(q: Queue, id: string, i: int) {
    0 <= i < |q.delta| && Matches(q.delta[i], id) && q.delta[i].action != NOOP && q.delta[i].action != DEAD
  }

  /** The action is not 'dead_lettered', or every row the move marks has a letter already. */
  ghost predicate SafeMove(q: Queue, id: string, action: string) {
    action != DEAD || forall i :: NewlyMarked(q, id, i) ==> HasLetter(q, q.delta[i])
  }

  lemma {:induction false} MoveStrandsNoneIff(q: Queue, id: string, action: string)
    requires NoneStranded(q)
    ensures NoneStranded(Move(q, id, action)) <==> SafeMove(q, id, action)
  {
    var q' := Move(q, id, action);
    assert q'.letters[|q.letters|] == Letter(id, action, false, 0);
    if SafeMove(q, id, action) {
      forall i | 0 <= i < |q'.delta| && q'.delta[i].action == DEAD ensures HasLetter(q', q'.delta[i]) {
        if HasLetter(q, q.delta[i]) {
          var d :| Covers(q, d, q.delta[i]);
          assert Covers(q', d, q'.delta[i]);
        } else {
          assert NewlyMarked(q, id, i) && Covers(q', |q.letters|, q'.delta[i]);
        }
      }
    } else {
      var i :| NewlyMarked(q, id, i) && !HasLetter(q, q.delta[i]);
      assert q'.delta[i] == q.delta[i].(action := DEAD);
      if d :| Covers(q', d, q'.delta[i]) { assert Covers(q, d, q.delta[i]); }
    }
  }

  lemma {:induction false} ReplayStrandsNone(q: Queue, d: nat)
    requires NoneStranded(q) && d < |q.letters|
    ensures NoneStranded(ReplayLetter(q, d))
  {
    var q' := ReplayLetter(q, d);
    forall i | 0 <= i < |q'.delta| && q'.delta[i].action == DEAD ensures HasLetter(q', q'.delta[i]) {
      assert q'.delta[i] == UnmarkRow(q.delta[i], q.letters[d].externalId, ReplayAction(q.letters[d].errorClass));
      assert q.delta[i].action == DEAD;
      var e :| Covers(q, e, q.delta[i]);
      assert Covers(q', e, q'.delta[i]);
    }
  }

  ghost predicate SafeStep(w: World, s: Step) {
    s.MoveRow? ==> SafeMove(w.queue, s.id, s.action)
  }

  lemma {:induction false} StepStrandsNoneIff(w: World, s: Step)
    requires NoneStranded(w.queue) && Enabled(w, s)
    ensures NoneStranded(After(w, s).queue) <==> SafeStep(w, s)
  {
    match s {
      case NewDelta(row) =>
        forall i | 0 <= i < |w.queue.delta| && w.queue.delta[i].action == DEAD ensures HasLetter(After(w, s).queue, w.queue.delta[i]) {
          var d :| Covers(w.queue, d, w.queue.delta[i]);
          assert Covers(After(w, s).queue, d, w.queue.delta[i]);
        }
      case MoveRow(id, action) => MoveStrandsNoneIff(w.queue, id, action);
      case StartReplay(_, _) =>
      case Turn(c, v) =>
        if w.pending[c] != [] && v == Commits { ReplayStrandsNone(w.queue, w.pending[c][0]); }
    }
  }

  ghost predicate NeverStranded(ws: seq<World>, n: nat)
    requires n < |ws|
  {
    forall i :: 0 <= i <= n ==> NoneStranded(ws[i].queue)
  }

  ghost predicate SafeSteps(ws: seq<World>, steps: seq<Step>, n: nat)
    requires n <= |ws| && n <= |steps|
  {
    forall i :: 0 <= i < n ==> SafeStep(ws[i], steps[i])
  }

  lemma {:induction false} StrandedUpTo(ws: seq<World>, steps: seq<Step>, n: nat)
    requires Run(ws, steps) && n < |ws|
    ensures NeverStranded(ws, n) <==> SafeSteps(ws, steps, n)
  {
    if n > 0 {
      var m := n - 1;
      StrandedUpTo(ws, steps, m);
      assert NeverStranded(ws, n) <==> NeverStranded(ws, m) && NoneStranded(ws[n].queue);
      assert SafeSteps(ws, steps, n) <==> SafeSteps(ws, steps, m) && SafeStep(ws[m], steps[m]);
      if NeverStranded(ws, m) {
        assert NoneStranded(ws[m].queue);
        StepStrandsNoneIff(ws[m], steps[m]);
      }
    } else {
      assert NoneStranded(START.queue);
    }
  }

  /** Over any interleaving of moves and any number of overlapping replay calls: no row is ever stranded if and only
      if every move is a safe one. */
  lemma {:induction false} NoStrandedLettersIff(ws: seq<World>, steps: seq<Step>)
    requires Run(ws, steps)
    ensures NeverStranded(ws, |steps|) <==> SafeSteps(ws, steps, |steps|)
  {
    StrandedUpTo(ws, steps, |steps|);
  }

  /** A move and the replay of its letter give a marked row the letter's action; every row the move marked
      gets its own action back exactly when that was the action of all of them. */
  lemma {:induction false} MoveThenReplay(q: Queue, id: string, action: string)
    ensures var q' := ReplayLetter(Move(q, id, action), |q.letters|);
      (forall i :: 0 <= i < |q.delta| && q.delta[i].action != DEAD ==> q'.delta[i] == q.delta[i]) <==>
      (forall i :: NewlyMarked(q, id, i) ==> q.delta[i].action == ReplayAction(action))
  {
    var moved := Move(q, id, action);
    var q' := ReplayLetter(moved, |q.letters|);
    assert moved.letters[|q.letters|] == Letter(id, action, false, 0);
    forall i | 0 <= i < |q.delta| && q.delta[i].action != DEAD
      ensures q'.delta[i] == q.delta[i] <==> (NewlyMarked(q, id, i) ==> q.delta[i].action == ReplayAction(action))
    {
      assert moved.delta[i] == MarkRow(q.delta[i], id);
      assert q'.delta[i] == UnmarkRow(moved.delta[i], id, ReplayAction(action));
    }
  }

  /** Dead-lettering an uncovered row under the action 'dead_lettered' strands it, and replaying the new letter
      leaves it marked. */
  lemma {:induction false} ImproperMoveStrands(q: Queue, id: string, i: nat)
    requires NewlyMarked(q, id, i) && !HasLetter(q, q.delta[i])
    ensures var moved := Move(q, id, DEAD);
      var q' := ReplayLetter(moved, |q.letters|);
      moved.delta[i].action == q'.delta[i].action == DEAD && !HasLetter(moved, moved.delta[i]) && !HasLetter(q', q'.delta[i])
  {
    var moved := Move(q, id, DEAD);
    var q' := ReplayLetter(moved, |q.letters|);
    assert moved.letters[|q.letters|] == Letter(id, DEAD, false, 0);
    assert moved.delta[i] == q'.delta[i] == q.delta[i].(action := DEAD);
    if d :| Covers(moved, d, moved.delta[i]) { assert Covers(q, d, q.delta[i]); }
    if d :| Covers(q', d, q'.delta[i]) { assert Covers(q, d, q.delta[i]); }
  }

  const STALE_ROW := DeltaRow(Some("7"), None, "update")

  const STALE_LETTER := Letter("7", "update", false, 0)

  /** Before, while and after the row is dead-lettered. */
  function StaleQueues(): seq<Queue> {
    [Queue([STALE_ROW], []), Queue([STALE_ROW.(action := DEAD)], [STALE_LETTER]),
     Queue([STALE_ROW], [STALE_LETTER.(requeued := true, requeueCount := 1)])]
  }

  lemma {:induction false} StaleMoved()
    ensures Path([START, World(StaleQueues()[0], map[]), World(StaleQueues()[1], map[])],
                 [NewDelta(STALE_ROW), MoveRow("7", "update")])
  {
    MoveOne(STALE_ROW, "7", "update");
  }

  lemma {:induction false} StaleReplayed() returns (w: World)
    ensures Path([World(StaleQueues()[1], map[]), World(StaleQueues()[1], map["a" := [0]]), w],
                 [StartReplay("a", 1), Turn("a", Commits)])
    ensures w.queue == StaleQueues()[2]
  {
    ReplayOne(STALE_ROW.(action := DEAD), STALE_LETTER);
    OneSelected(STALE_LETTER);
    w := After(World(StaleQueues()[1], map["a" := [0]]), Turn("a", Commits));
  }

  /** How the engine comes to do so. It fetches a row while that row is marked (state 2), a replay brings the row
      back (state 4), and the row, which has failed, is then moved under the action it was fetched with. */
  lemma {:induction false} StaleMoveStrands() returns (ws: seq<World>, steps: seq<Step>)
    ensures Run(ws, steps) && |steps| == 5 && steps[4] == MoveRow("7", DEAD)
    ensures ws[2].queue.delta == [DeltaRow(Some("7"), None, DEAD)]
    ensures NeverStranded(ws, 4) && !NoneStranded(ws[5].queue)
  {
    StaleMoved();
    var w := StaleReplayed();
    var w1, w2 := World(StaleQueues()[0], map[]), World(StaleQueues()[1], map[]);
    var front := [START, w1, w2];
    var back := [w2, World(StaleQueues()[1], map["a" := [0]]), w];
    ws, steps := Join(front, [NewDelta(STALE_ROW), MoveRow("7", "update")],
                      back, [StartReplay("a", 1), Turn("a", Commits)]);
    ws, steps := Extend(ws, steps, MoveRow("7", DEAD));
    OneLetterCovers(STALE_ROW.(action := DEAD), STALE_LETTER);
    StrandedAlone(STALE_ROW, "7", StaleQueues()[2].letters[0]);
  }

  lemma {:induction false} OneLetterCovers(row: DeltaRow, l: Letter)
    requires Matches(row, l.externalId) && Replayable(l) && l.errorClass != DEAD
    ensures NoneStranded(Queue([row], [l]))
  {
    assert Covers(Queue([row], [l]), 0, row);
  }

  lemma {:induction false} StrandedAlone(row: DeltaRow, id: string, l: Letter)
    requires Matches(row, id) && row.action != NOOP && row.action != DEAD && !Replayable(l)
    ensures !NoneStranded(Move(Queue([row], [l]), id, DEAD))
  {
    var q := Queue([row], [l]);
    assert NewlyMarked(q, id, 0) && !HasLetter(q, row);
    ImproperMoveStrands(q, id, 0);
  }

  lemma {:induction false} MoveOne(row: DeltaRow, id: string, action: string)
    requires Matches(row, id) && row.action != NOOP && row.action != DEAD
    ensures Move(Queue([row], []), id, action) == Queue([row.(action := DEAD)], [Letter(id, action, false, 0)])
  {
    assert Mark([row], id) == [row.(action := DEAD)];
  }

  lemma {:induction false} ReplayOne(row: DeltaRow, l: Letter)
    requires Matches(row, l.externalId) && row.action == DEAD && l.errorClass != ""
    ensures ReplayLetter(Queue([row], [l]), 0) ==
      Queue([row.(action := l.errorClass)], [l.(requeued := true, requeueCount := l.requeueCount + 1)])
  {
    assert Unmark([row], l.externalId, l.errorClass) == [row.(action := l.errorClass)];
  }

  lemma {:induction false} OneSelected(l: Letter)
    requires Replayable(l)
    ensures Select([l], 1) == [0]
  {
    assert [l][..0] == [];
  }

  // ---------------------------------------------------------------- a complete replay

  lemma {:induction false} SelectAll(letters: seq<Letter>, limit: nat, d: nat)
    requires d < |letters| <= limit && Replayable(letters[d])
    ensures exists i :: 0 <= i < |Select(letters, limit)| && Select(letters, limit)[i] == d
  {
    var n := |letters| - 1;
    var before := Select(letters[..n], limit);
    SelectSize(letters[..n], limit);
    if d < n {
      SelectAll(letters[..n], limit, d);
      var i :| 0 <= i < |before| && before[i] == d;
      assert Select(letters, limit)[i] == d;
    } else {
      assert Select(letters, limit)[|before|] == n;
    }
  }

  /** A replayable letter is left out only when the limit is used up by older ones. */
  lemma {:induction false} SelectsOldest(letters: seq<Letter>, limit: nat, d: nat)
    requires d < |letters| && Replayable(letters[d])
    ensures var ids := Select(letters, limit);
      d in ids || (|ids| == limit && forall i :: 0 <= i < |ids| ==> ids[i] < d)
  {
    var n := |letters| - 1;
    if d < n { SelectsOldest(letters[..n], limit, d); }
  }

  lemma {:induction false} SelectSize(letters: seq<Letter>, limit: nat)
    ensures |Select(letters, limit)| <= |letters|
  {
    if letters != [] { SelectSize(letters[..|letters| - 1], limit); }
  }

  /** The letter, once replayed, takes the row out of the dead-lettered state. */
  ghost predicate Frees(q: Queue, d: int, r: DeltaRow) {
    0 <= d < |q.letters| && Matches(r, q.letters[d].externalId) && q.letters[d].errorClass != DEAD
  }

  ghost predicate SomeFrees(q: Queue, ids: seq<nat>, r: DeltaRow) {
    exists i :: 0 <= i < |ids| && Frees(q, ids[i], r)
  }

  /** Nothing but the requeue state of letters and the actions of rows has changed. */
  ghost predicate SameIdentities(q: Queue, q': Queue) {
    && |q'.delta| == |q.delta| && |q'.letters| == |q.letters|
    && (forall r :: 0 <= r < |q.delta| ==> q'.delta[r].(action := "") == q.delta[r].(action := ""))
    && forall d :: 0 <= d < |q.letters| ==>
         q'.letters[d].externalId == q.letters[d].externalId && q'.letters[d].errorClass == q.letters[d].errorClass
  }

  ghost predicate AllCommit(verdicts: seq<Verdict>) {
    forall i :: 0 <= i < |verdicts| ==> verdicts[i] == Commits
  }

  lemma {:induction false} TurnsKeepIdentities(q: Queue, ids: seq<nat>, verdicts: seq<Verdict>)
    requires |ids| == |verdicts| && forall i :: 0 <= i < |ids| ==> ids[i] < |q.letters|
    ensures SameIdentities(q, ReplayTurns(q, ids, verdicts).queue)
  {
    if ids != [] {
      var n := |ids| - 1;
      TurnsKeepIdentities(q, ids[..n], verdicts[..n]);
      ReplayKeepsIdentities(ReplayTurns(q, ids[..n], verdicts[..n]).queue, ids[n]);
    }
  }

  lemma {:induction false} ReplayKeepsIdentities(q: Queue, d: nat)
    requires d < |q.letters|
    ensures SameIdentities(q, ReplayLetter(q, d))
  {
  }

  /** Committed turns leave a row dead-lettered exactly when it was and none of their letters frees it. */
  lemma {:induction false} TurnsUnmark(q: Queue, ids: seq<nat>, verdicts: seq<Verdict>, r: nat)
    requires |ids| == |verdicts| && AllCommit(verdicts) && (forall i :: 0 <= i < |ids| ==> ids[i] < |q.letters|)
    requires r < |q.delta|
    ensures var q' := ReplayTurns(q, ids, verdicts).queue;
      && |q'.delta| == |q.delta|
      && (q'.delta[r].action == DEAD <==> q.delta[r].action == DEAD && !SomeFrees(q, ids, q.delta[r]))
  {
    if ids != [] {
      var n := |ids| - 1;
      TurnsUnmark(q, ids[..n], verdicts[..n], r);
      TurnsKeepIdentities(q, ids[..n], verdicts[..n]);
      LastTurnUnmarks(q, ReplayTurns(q, ids[..n], verdicts[..n]).queue, ids[n], r);
      assert SomeFrees(q, ids, q.delta[r]) <==> SomeFrees(q, ids[..n], q.delta[r]) || Frees(q, ids[n], q.delta[r]) by {
        SomeFreesLast(q, ids, q.delta[r]);
      }
    }
  }

  lemma {:induction false} SomeFreesLast(q: Queue, ids: seq<nat>, r: DeltaRow)
    requires ids != []
    ensures var n := |ids| - 1; SomeFrees(q, ids, r) <==> SomeFrees(q, ids[..n], r) || Frees(q, ids[n], r)
  {
    var n := |ids| - 1;
    if i :| 0 <= i < n && Frees(q, ids[..n][i], r) { assert Frees(q, ids[i], r); }
    if i :| 0 <= i < |ids| && Frees(q, ids[i], r) { assert i == n || Frees(q, ids[..n][i], r); }
  }

  lemma {:induction false} LastTurnUnmarks(q: Queue, before: Queue, d: nat, r: nat)
    requires SameIdentities(q, before) && d < |q.letters| && r < |q.delta|
    ensures ReplayLetter(before, d).delta[r].action == DEAD <==>
      before.delta[r].action == DEAD && !Frees(q, d, q.delta[r])
  {
    var l := before.letters[d];
    assert ReplayLetter(before, d).delta[r] == UnmarkRow(before.delta[r], l.externalId, ReplayAction(l.errorClass));
    assert Matches(before.delta[r], l.externalId) <==> Matches(q.delta[r], q.letters[d].externalId);
  }

  /** One replay call that reaches every letter brings every dead-lettered row back if and only if none is stranded. */
  lemma {:induction false} FullReplayFreesAllIff(q: Queue, limit: nat, verdicts: seq<Verdict>)
    requires |q.letters| <= limit && |verdicts| == |Select(q.letters, limit)| && AllCommit(verdicts)
    ensures var q' := ReplayTurns(q, Select(q.letters, limit), verdicts).queue;
      |q'.delta| == |q.delta| && ((forall r :: 0 <= r < |q'.delta| ==> q'.delta[r].action != DEAD) <==> NoneStranded(q))
  {
    var ids := Select(q.letters, limit);
    TurnsKeepIdentities(q, ids, verdicts);
    forall r | 0 <= r < |q.delta|
      ensures ReplayTurns(q, ids, verdicts).queue.delta[r].action == DEAD <==>
        q.delta[r].action == DEAD && !HasLetter(q, q.delta[r])
    {
      TurnsUnmark(q, ids, verdicts, r);
      SelectedFree(q, limit, q.delta[r]);
    }
  }

  lemma {:induction false} SelectedFree(q: Queue, limit: nat, r: DeltaRow)
    requires |q.letters| <= limit
    ensures SomeFrees(q, Select(q.letters, limit), r) <==> HasLetter(q, r)
  {
    var ids := Select(q.letters, limit);
    if d :| Covers(q, d, r) {
      SelectAll(q.letters, limit, d);
      var i :| 0 <= i < |ids| && ids[i] == d;
      assert Frees(q, ids[i], r);
    }
    if i :| 0 <= i < |ids| && Frees(q, ids[i], r) { assert Covers(q, ids[i], r); }
  }

  // ---------------------------------------------------------------- at most once

  ghost predicate Once(q: Queue) {
    forall d :: 0 <= d < |q.letters| ==> q.letters[d].requeueCount <= 1
  }

  ghost predicate PendingValid(q: Queue, ids: seq<nat>) {
    && (forall i :: 0 <= i < |ids| ==> ids[i] < |q.letters| && !q.letters[ids[i]].requeued)
    && forall i, j :: 0 <= i < j < |ids| ==> ids[i] < ids[j]
  }

  ghost predicate NoneShared(a: seq<nat>, b: seq<nat>) {
    forall i, j :: 0 <= i < |a| && 0 <= j < |b| ==> a[i] != b[j]
  }

  /** What the calls have still to do is ascending, not requeued and disjoint; nothing has been requeued twice. */
  ghost predicate OnceState(w: World) {
    && (forall c :: c in w.pending ==> PendingValid(w.queue, w.pending[c]))
    && (forall c, e :: c in w.pending && e in w.pending && c != e ==> NoneShared(w.pending[c], w.pending[e]))
    && forall d :: 0 <= d < |w.queue.letters| ==>
         w.queue.letters[d].requeueCount == if w.queue.letters[d].requeued then 1 else 0
  }

  /** The call selects no letter that another call has selected and not reached. */
  ghost predicate SafeStart(w: World, limit: nat) {
    forall e :: e in w.pending ==> NoneShared(Select(w.queue.letters, limit), w.pending[e])
  }

  ghost predicate StartsSafely(w: World, s: Step) {
    s.StartReplay? ==> SafeStart(w, s.limit)
  }

  lemma {:induction false} TurnPending(w: World, s: Step, e: string)
    requires OnceState(w) && Enabled(w, s) && s.Turn? && w.pending[s.caller] != [] && e in w.pending
    ensures PendingValid(After(w, s).queue, After(w, s).pending[e])
  {
    var w', c := After(w, s), s.caller;
    assert PendingValid(w.queue, w.pending[e]) && PendingValid(w.queue, w.pending[c]);
    forall i | 0 <= i < |w'.pending[e]|
      ensures w'.pending[e][i] < |w'.queue.letters| && !w'.queue.letters[w'.pending[e][i]].requeued
    {
      if e == c {
        assert w'.pending[c][i] == w.pending[c][i + 1] && w.pending[c][0] < w.pending[c][i + 1];
      } else {
        assert NoneShared(w.pending[c], w.pending[e]);
      }
    }
  }

  lemma {:induction false} TurnKeepsOnce(w: World, s: Step)
    requires OnceState(w) && Enabled(w, s) && s.Turn?
    ensures OnceState(After(w, s))
  {
    var w', c := After(w, s), s.caller;
    if w.pending[c] != [] {
      forall e | e in w'.pending ensures PendingValid(w'.queue, w'.pending[e]) {
        TurnPending(w, s, e);
      }
      forall a, b | a in w'.pending && b in w'.pending && a != b ensures NoneShared(w'.pending[a], w'.pending[b]) {
        assert NoneShared(w.pending[a], w.pending[b]);
      }
      assert PendingValid(w.queue, w.pending[c]);
    }
  }

  lemma {:induction false} StartKeepsOnceIff(w: World, s: Step)
    requires OnceState(w) && Enabled(w, s) && s.StartReplay?
    ensures OnceState(After(w, s)) <==> SafeStart(w, s.limit)
  {
    var w', c := After(w, s), s.caller;
    assert PendingValid(w'.queue, w'.pending[c]);
    if SafeStart(w, s.limit) {
      forall a, b | a in w'.pending && b in w'.pending && a != b ensures NoneShared(w'.pending[a], w'.pending[b]) {
        if a == c { assert NoneShared(w'.pending[c], w.pending[b]); }
        if b == c { assert NoneShared(w'.pending[c], w.pending[a]); }
      }
    }
    if OnceState(w') {
      forall e | e in w.pending ensures NoneShared(Select(w.queue.letters, s.limit), w.pending[e]) {
        assert NoneShared(w'.pending[c], w'.pending[e]);
      }
    }
  }

  lemma {:induction false} OnceStepIff(w: World, s: Step)
    requires OnceState(w) && Enabled(w, s)
    ensures OnceState(After(w, s)) <==> StartsSafely(w, s)
  {
    match s {
      case NewDelta(_) =>
      case MoveRow(_, _) =>
        forall c | c in w.pending ensures PendingValid(After(w, s).queue, w.pending[c]) {
          assert PendingValid(w.queue, w.pending[c]);
        }
      case StartReplay(_, _) => StartKeepsOnceIff(w, s);
      case Turn(_, _) => TurnKeepsOnce(w, s);
    }
  }

  ghost predicate AlwaysOnce(ws: seq<World>, n: nat)
    requires n < |ws|
  {
    forall i :: 0 <= i <= n ==> OnceState(ws[i])
  }

  ghost predicate SafeStarts(ws: seq<World>, steps: seq<Step>, n: nat)
    requires n <= |ws| && n <= |steps|
  {
    forall i :: 0 <= i < n ==> StartsSafely(ws[i], steps[i])
  }

  lemma {:induction false} OnceUpTo(ws: seq<World>, steps: seq<Step>, n: nat)
    requires Path(ws, steps) && OnceState(ws[0]) && n < |ws|
    ensures AlwaysOnce(ws, n) <==> SafeStarts(ws, steps, n)
  {
    if n > 0 {
      var m := n - 1;
      OnceUpTo(ws, steps, m);
      assert AlwaysOnce(ws, n) <==> AlwaysOnce(ws, m) && OnceState(ws[n]);
      assert SafeStarts(ws, steps, n) <==> SafeStarts(ws, steps, m) && StartsSafely(ws[m], steps[m]);
      if AlwaysOnce(ws, m) {
        assert OnceState(ws[m]);
        OnceStepIff(ws[m], steps[m]);
      }
    }
  }

  /** In every run whose replay calls start safely each letter is replayed at most once. */
  lemma {:induction false} AtMostOnceWhenSafe(ws: seq<World>, steps: seq<Step>, n: nat)
    requires Run(ws, steps) && n < |ws| && SafeStarts(ws, steps, n)
    ensures OnceState(ws[n]) && Once(ws[n].queue)
  {
    OnceUpTo(ws, steps, n);
    assert OnceState(ws[n]);
  }

  ghost predicate AllTurns(steps: seq<Step>) {
    forall i :: 0 <= i < |steps| ==> steps[i].Turn?
  }

  /** However the calls under way go on, no letter is requeued twice. */
  ghost predicate NeverTwice(w: World) {
    forall ws: seq<World>, steps :: Path(ws, steps) && AllTurns(steps) && ws[0] == w ==> Once(ws[|steps|].queue)
  }

  /** The call has at least `p` letters to do, and they exist. */
  ghost predicate Reaches(w: World, c: string, p: nat) {
    c in w.pending && p <= |w.pending[c]| && forall i :: 0 <= i < p ==> w.pending[c][i] < |w.queue.letters|
  }

  /** The call works off its next `p` letters, all declined. */
  lemma {:induction false} Skip(ws: seq<World>, steps: seq<Step>, c: string, p: nat)
    returns (ws': seq<World>, steps': seq<Step>)
    requires Path(ws, steps) && AllTurns(steps)
    requires Reaches(ws[|steps|], c, p)
    ensures Path(ws', steps') && AllTurns(steps') && ws'[0] == ws[0]
    ensures var w, w' := ws[|steps|], ws'[|steps'|];
      w' == w.(pending := w.pending[c := w.pending[c][p..]])
    decreases p
  {
    var w := ws[|steps|];
    if p == 0 {
      ws', steps' := ws, steps;
      assert w.pending[c := w.pending[c]] == w.pending;
    } else {
      ws', steps' := Extend(ws, steps, Turn(c, Declined));
      assert w.pending[c][1..][p - 1..] == w.pending[c][p..];
      ws', steps' := Skip(ws', steps', c, p - 1);
    }
  }

  /** The call works off its list up to position `p`, declining, and replays the letter there. */
  lemma {:induction false} ReplayAt(ws: seq<World>, steps: seq<Step>, c: string, p: nat) returns (ws': seq<World>, steps': seq<Step>)
    requires Path(ws, steps) && AllTurns(steps)
    requires Reaches(ws[|steps|], c, p + 1)
    ensures Path(ws', steps') && AllTurns(steps') && ws'[0] == ws[0]
    ensures var w, w' := ws[|steps|], ws'[|steps'|];
      w'.queue == ReplayLetter(w.queue, w.pending[c][p]) && w'.pending == w.pending[c := w.pending[c][p + 1..]]
  {
    ws', steps' := Skip(ws, steps, c, p);
    ws', steps' := Extend(ws', steps', Turn(c, Commits));
  }

  /** A start is safe if and only if no letter can come to be requeued twice by the calls then under way. */
  lemma {:induction false} StartSafeIff(w: World, c: string, limit: nat)
    requires OnceState(w) && c !in w.pending
    ensures SafeStart(w, limit) <==> NeverTwice(After(w, StartReplay(c, limit)))
  {
    var s := StartReplay(c, limit);
    var w' := After(w, s);
    if SafeStart(w, limit) {
      StartKeepsOnceIff(w, s);
      forall ws: seq<World>, steps | Path(ws, steps) && AllTurns(steps) && ws[0] == w' ensures Once(ws[|steps|].queue) {
        OnceUpTo(ws, steps, |steps|);
        assert AlwaysOnce(ws, |steps|);
      }
    } else {
      var e :| e in w.pending && !NoneShared(Select(w.queue.letters, limit), w.pending[e]);
      var p, q :| 0 <= p < |w'.pending[c]| && 0 <= q < |w.pending[e]| && w'.pending[c][p] == w.pending[e][q];
      assert PendingValid(w.queue, w.pending[e]);
      TwiceIsPossible(w', c, p, e, q);
    }
  }

  lemma {:induction false} TwiceIsPossible(w: World, c: string, p: nat, e: string, q: nat)
    requires c != e && Reaches(w, c, p + 1) && Reaches(w, e, q + 1) && w.pending[c][p] == w.pending[e][q]
    ensures !NeverTwice(w)
  {
    var d := w.pending[c][p];
    var ws, steps := ReplayAt([w], [], c, p);
    assert ws[|steps|].pending[e] == w.pending[e];
    ws, steps := ReplayAt(ws, steps, e, q);
    assert ws[|steps|].queue.letters[d].requeueCount == w.queue.letters[d].requeueCount + 2;
  }

  /** Two overlapping calls can both replay the same letter, because the UPDATE does not look at `requeued_at`:
      with one replayable letter and no call under way, two calls can requeue it twice. */
  lemma {:induction false} OverlappingReplaysRepeat(w: World)
    requires w.pending == map[] && |w.queue.letters| == 1 && Replayable(w.queue.letters[0])
    ensures var s1, s2 := StartReplay("a", 1), StartReplay("b", 1);
      && Enabled(w, s1) && Enabled(After(w, s1), s2)
      && var w2 := After(After(w, s1), s2);
      && Enabled(w2, Turn("a", Commits)) && Enabled(After(w2, Turn("a", Commits)), Turn("b", Commits))
      && After(After(w2, Turn("a", Commits)), Turn("b", Commits)).queue.letters[0].requeueCount
         == w.queue.letters[0].requeueCount + 2
  {
    assert w.queue.letters == [w.queue.letters[0]];
    OneSelected(w.queue.letters[0]);
    var w2 := After(After(w, StartReplay("a", 1)), StartReplay("b", 1));
    assert w2.pending["a"] == [0] && w2.pending["b"] == [0];
    var w3 := After(w2, Turn("a", Commits));
    assert w3.pending["b"] == [0];
  }
}
