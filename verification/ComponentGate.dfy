/** The work-cycle gate of engine/src/inandout/postgres/component_gate.py: check the desired state,
    take the shared advisory lock, check again. */
module ComponentGate {
  import opened Wrappers

  datatype Desired = Running | Stopped | Shadow

  /** `desired_state`: a missing table or row counts as stopped. */
  function Effective(row: Option<Desired>): Desired {
    if row.None? then Stopped else row.value
  }

  // ---------------------------------------------------------------- one work cycle on its own

  /** A read of `component_state`: the row if there is one, or an exception other than UndefinedTable. */
  datatype Read = Got(row: Option<Desired>) | Raises

  predicate SawWork(r: Read) {
    r.Got? && Effective(r.row) != Stopped
  }

  class CycleContext {
    var connected: bool     // `_conn is not None`
    var allowed: bool
    var state: Desired
    var locks: nat          // shared locks taken through this context and not released

    constructor ()
      ensures !connected && !allowed && state == Stopped && locks == 0
    {
      connected, allowed, state, locks := false, false, Stopped, 0;
    }

    /** `__aenter__`; `entered` is false when an exception leaves it, and then `__aexit__` is not called.
        `unlockFails` is an exception from the unlock statement of the refusal. */
    method Enter(first: Read, second: Read, unlockFails: bool) returns (entered: bool)
      requires !connected && !allowed && locks == 0
      modifies this
      ensures entered <==>
        first.Got? && (Effective(first.row) == Stopped || (second.Got? && (SawWork(second) || !unlockFails)))
      ensures entered ==> (allowed <==> connected) && locks == (if connected then 1 else 0)
      ensures entered ==> (allowed <==> SawWork(first) && SawWork(second))
      ensures !entered ==> !allowed && locks == if first.Raises? then 0 else 1
      ensures entered ==> state == if SawWork(first) then Effective(second.row) else Stopped
    {
      if first.Raises? { return false; }
      state := Effective(first.row);
      if state == Stopped {
        allowed := false;
        return true;
      }
      connected := true;
      locks := locks + 1;
      if second.Raises? { return false; }
      state := Effective(second.row);
      if state == Stopped {
        if unlockFails { return false; }
        locks := locks - 1;
        connected := false;
        allowed := false;
        return true;
      }
      allowed := true;
      return true;
    }

    /** `__aexit__`; `unlockFails` is an exception from the unlock statement. */
    method Exit(unlockFails: bool)
      requires connected ==> locks > 0
      modifies this
      ensures !connected
      ensures locks == old(locks) - (if old(connected) && !unlockFails then 1 else 0)
    {
      if connected {
        if !unlockFails { locks := locks - 1; }
        connected := false;
      }
    }
  }

  /** `async with gate.work_cycle()`: every exit gives the lock back, unless the second read raises or the unlock
      statement fails, be it that of the refusal or that of the end of the cycle. */
  method WorkCycle(first: Read, second: Read, unlockFails: bool) returns (ran: bool, leaked: bool)
    ensures ran <==> SawWork(first) && SawWork(second)
    ensures leaked <==> SawWork(first) && (second.Raises? || unlockFails)
  {
    var ctx := new CycleContext();
    var entered := ctx.Enter(first, second, unlockFails);
    ran := entered && ctx.allowed;
    if entered {
      ctx.Exit(unlockFails);
    }
    leaked := ctx.locks > 0;
  }

  // ---------------------------------------------------------------- all replicas and the schema-manager

  /** Where a replica stands: between cycles, about to take the lock, holding it unchecked,
      holding it after a refusal, or inside an allowed cycle. */
  datatype Pc = Idle | Waiting | Holding | Refused | InCycle

  /** `locks` counts the shared locks its sessions hold; `leaked` those no code path will release. */
  datatype Replica = Replica(pc: Pc, locks: nat, leaked: nat)

  datatype World = World(row: Option<Desired>, replicas: map<string, Replica>, exclusive: bool)

  datatype Step =
    | Join(name: string)
    | FirstCheck(name: string)
    | Acquire(name: string)
    | Recheck(name: string)
    | RecheckRaises(name: string)
    | ReleaseRefused(name: string)
    | ReleaseRefusedFails(name: string)
    | Leave(name: string)
    | LeaveUnlockFails(name: string)
    | Crash(name: string)
    | SetDesired(row: Option<Desired>)
    | TakeExclusive
    | ReleaseExclusive

  ghost predicate AtPc(w: World, name: string, pc: Pc) {
    name in w.replicas && w.replicas[name].pc == pc
  }

  ghost predicate Enabled(w: World, s: Step) {
    match s
    case Join(n) => n !in w.replicas
    case FirstCheck(n) => AtPc(w, n, Idle)
    case Acquire(n) => AtPc(w, n, Waiting) && !w.exclusive
    case Recheck(n) => AtPc(w, n, Holding)
    case RecheckRaises(n) => AtPc(w, n, Holding)
    case ReleaseRefused(n) => AtPc(w, n, Refused) && w.replicas[n].locks > 0
    case ReleaseRefusedFails(n) => AtPc(w, n, Refused)
    case Leave(n) => AtPc(w, n, InCycle) && w.replicas[n].locks > 0
    case LeaveUnlockFails(n) => AtPc(w, n, InCycle)
    case Crash(n) => n in w.replicas
    case SetDesired(_) => true
    case TakeExclusive => !w.exclusive && forall n :: n in w.replicas ==> w.replicas[n].locks == 0
    case ReleaseExclusive => w.exclusive
  }

  ghost function Move(w: World, name: string, pc: Pc, locks: int, leaked: nat): World
    requires name in w.replicas && w.replicas[name].locks + locks >= 0
  {
    var r := w.replicas[name];
    w.(replicas := w.replicas[name := Replica(pc, r.locks + locks, r.leaked + leaked)])
  }

  ghost function After(w: World, s: Step): World
    requires Enabled(w, s)
  {
    match s
    case Join(n) => w.(replicas := w.replicas[n := Replica(Idle, 0, 0)])
    case FirstCheck(n) => Move(w, n, if Effective(w.row) == Stopped then Idle else Waiting, 0, 0)
    case Acquire(n) => Move(w, n, Holding, 1, 0)
    case Recheck(n) => Move(w, n, if Effective(w.row) == Stopped then Refused else InCycle, 0, 0)
    case RecheckRaises(n) => Move(w, n, Idle, 0, 1)
    case ReleaseRefused(n) => Move(w, n, Idle, -1, 0)
    case ReleaseRefusedFails(n) => Move(w, n, Idle, 0, 1)
    case Leave(n) => Move(w, n, Idle, -1, 0)
    case LeaveUnlockFails(n) => Move(w, n, Idle, 0, 1)
    case Crash(n) => w.(replicas := w.replicas[n := Replica(Idle, 0, 0)])
    case SetDesired(row) => w.(row := row)
    case TakeExclusive => w.(exclusive := true)
    case ReleaseExclusive => w.(exclusive := false)
  }

  const START := World(None, map[], false)

  /** The states a run goes through and the steps between them. */
  ghost predicate Run(ws: seq<World>, steps: seq<Step>) {
    && |ws| == |steps| + 1 && ws[0] == START
    && forall i :: 0 <= i < |steps| ==> Enabled(ws[i], steps[i]) && ws[i + 1] == After(ws[i], steps[i])
  }

  /** The code of this replica is between acquiring and releasing the lock. */
  predicate Between(pc: Pc) {
    pc == Holding || pc == Refused || pc == InCycle
  }

  /** Each replica holds one lock while its code is between acquire and release, plus the leaked ones;
      nobody holds one beside the exclusive lock. */
  ghost predicate Balanced(w: World) {
    forall n :: n in w.replicas ==> ReplicaBalanced(w.replicas[n], w.exclusive)
  }

  ghost predicate ReplicaBalanced(r: Replica, exclusive: bool) {
    && r.locks == r.leaked + (if Between(r.pc) then 1 else 0)
    && (exclusive ==> r.locks == 0)
  }

  lemma {:induction false} RunBalanced(ws: seq<World>, steps: seq<Step>, i: nat)
    requires Run(ws, steps) && i < |ws|
    ensures Balanced(ws[i])
  {
    if i > 0 {
      RunBalanced(ws, steps, i - 1);
    }
  }

  ghost predicate NobodyWorks(w: World) {
    forall n :: n in w.replicas ==> w.replicas[n].pc != InCycle
  }

  lemma {:induction false} ExclusiveMeansNobodyWorks(ws: seq<World>, steps: seq<Step>, i: nat)
    requires Run(ws, steps) && i < |ws| && ws[i].exclusive
    ensures NobodyWorks(ws[i])
  {
    RunBalanced(ws, steps, i);
    forall n | n in ws[i].replicas ensures ws[i].replicas[n].pc != InCycle {
      assert ReplicaBalanced(ws[i].replicas[n], true);
    }
  }

  /** From state `i` to state `j` the desired state reads as stopped. */
  ghost predicate StoppedThroughout(ws: seq<World>, i: nat, j: nat)
    requires j < |ws|
  {
    forall k :: i <= k <= j ==> Effective(ws[k].row) == Stopped
  }

  /** The barrier: once the schema-manager has held the exclusive lock with desired = stopped, no replica
      works for as long as desired stays stopped, whether or not the lock has been released again. */
  lemma {:induction false} BarrierHolds(ws: seq<World>, steps: seq<Step>, i: nat, j: nat)
    requires Run(ws, steps) && i <= j < |ws|
    requires ws[i].exclusive && StoppedThroughout(ws, i, j)
    ensures NobodyWorks(ws[j])
  {
    if i == j {
      ExclusiveMeansNobodyWorks(ws, steps, i);
    } else {
      BarrierHolds(ws, steps, i, j - 1);
      assert Effective(ws[j - 1].row) == Stopped;
    }
  }

  /** Without the second check the barrier would not hold: after it, with the lock released and desired
      still stopped, a replica that passed its first check earlier can come to hold the shared lock. */
  lemma {:induction false} FirstCheckGoesStale() returns (ws: seq<World>, steps: seq<Step>, i: nat, n: string)
    ensures Run(ws, steps) && i < |ws| && ws[i].exclusive && StoppedThroughout(ws, i, |ws| - 1)
    ensures AtPc(ws[|ws| - 1], n, Holding)
  {
    ws, steps, n := [START], [], "a";
    ws, steps := Extend(ws, steps, SetDesired(Some(Running)));
    ws, steps := Extend(ws, steps, Join(n));
    ws, steps := Extend(ws, steps, FirstCheck(n));
    ws, steps := Extend(ws, steps, SetDesired(Some(Stopped)));
    ws, steps := Extend(ws, steps, TakeExclusive);
    i := 5;
    var barrier := ws;
    ws, steps := Extend(ws, steps, ReleaseExclusive);
    ws, steps := Extend(ws, steps, Acquire(n));
    assert ws[5] == barrier[5];
  }

  lemma {:induction false} Extend(ws: seq<World>, steps: seq<Step>, s: Step) returns (ws': seq<World>, steps': seq<Step>)
    requires Run(ws, steps) && Enabled(ws[|steps|], s)
    ensures Run(ws', steps') && steps' == steps + [s] && ws' == ws + [After(ws[|steps|], s)]
  {
    ws', steps' := ws + [After(ws[|steps|], s)], steps + [s];
    forall i | 0 <= i < |steps'| ensures Enabled(ws'[i], steps'[i]) && ws'[i + 1] == After(ws'[i], steps'[i]) {
      if i < |steps| { assert steps'[i] == steps[i] && ws'[i] == ws[i] && ws'[i + 1] == ws[i + 1]; }
    }
  }

  /** The exclusive lock can be taken exactly when it is free, nobody is between acquire and release, and
      no earlier cycle leaked its lock. */
  lemma {:induction false} ManagerCanProceedIff(ws: seq<World>, steps: seq<Step>, i: nat)
    requires Run(ws, steps) && i < |ws|
    ensures Enabled(ws[i], TakeExclusive) <==>
      !ws[i].exclusive && forall n :: n in ws[i].replicas ==> Quiet(ws[i].replicas[n])
  {
    RunBalanced(ws, steps, i);
    forall n | n in ws[i].replicas ensures ws[i].replicas[n].locks == 0 <==> Quiet(ws[i].replicas[n]) {
      assert ReplicaBalanced(ws[i].replicas[n], ws[i].exclusive);
    }
  }

  predicate Quiet(r: Replica) {
    !Between(r.pc) && r.leaked == 0
  }

  /** A lock leaked by a replica shuts the schema-manager out until that replica's sessions end. */
  lemma {:induction false} LeakBlocksManager(ws: seq<World>, steps: seq<Step>, i: nat, j: nat, n: string)
    requires Run(ws, steps) && i <= j < |ws|
    requires n in ws[i].replicas && ws[i].replicas[n].leaked > 0
    requires forall k :: i <= k < j ==> steps[k] != Crash(n)
    ensures n in ws[j].replicas && ws[j].replicas[n].leaked > 0
    ensures !ws[j].exclusive && !Enabled(ws[j], TakeExclusive)
  {
    RunBalanced(ws, steps, j);
    if i < j {
      LeakBlocksManager(ws, steps, i, j - 1, n);
    }
    assert ReplicaBalanced(ws[j].replicas[n], ws[j].exclusive);
  }
}
