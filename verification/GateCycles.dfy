/** One replica's cycle among the others: the steps of the protocol are those of `async with gate.work_cycle()`. */
module GateCycles {
  import opened Wrappers
  import opened ComponentGate

  /** The states gone through from `ws[0]` on and the steps between them. */
  ghost predicate Path(ws: seq<World>, steps: seq<Step>) {
    && |ws| == |steps| + 1
    && forall i :: 0 <= i < |steps| ==> Enabled(ws[i], steps[i]) && ws[i + 1] == After(ws[i], steps[i])
  }

  lemma {:induction false} Go(ws: seq<World>, steps: seq<Step>, s: Step) returns (ws': seq<World>, steps': seq<Step>)
    requires Path(ws, steps) && Enabled(ws[|steps|], s)
    ensures Path(ws', steps') && |ws'| == |ws| + 1 && ws'[..|ws|] == ws && ws'[|ws|] == After(ws[|steps|], s)
  {
    ws', steps' := ws + [After(ws[|steps|], s)], steps + [s];
    forall i | 0 <= i < |steps'| ensures Enabled(ws'[i], steps'[i]) && ws'[i + 1] == After(ws'[i], steps'[i]) {
      if i < |steps| { assert steps'[i] == steps[i] && ws'[i] == ws[i] && ws'[i + 1] == ws[i + 1]; }
    }
  }

  /** The replica has had an allowed cycle. */
  ghost predicate Worked(ws: seq<World>, name: string) {
    exists i :: 0 <= i < |ws| && AtPc(ws[i], name, InCycle)
  }

  /** How many locks the cycle leaves behind: the condition of `WorkCycle`. */
  ghost function Leaks(first: Option<Desired>, second: Read, unlockFails: bool): nat {
    if SawWork(Got(first)) && (second.Raises? || unlockFails) then 1 else 0
  }

  /** Where the replica stands after its first check and the acquire. */
  lemma {:induction false} Entering(w: World, name: string, second: Read) returns (ws: seq<World>, steps: seq<Step>)
    requires AtPc(w, name, Idle) && !w.exclusive && SawWork(Got(w.row))
    ensures Path(ws, steps) && ws[0] == w && !Worked(ws, name)
    ensures var r, last := w.replicas[name], ws[|ws| - 1];
      last == World(if second.Got? then second.row else w.row, w.replicas[name := Replica(Holding, r.locks + 1, r.leaked)], false)
  {
    ws, steps := [w], [];
    ws, steps := Go(ws, steps, FirstCheck(name));
    ws, steps := Go(ws, steps, Acquire(name));
    if second.Got? { ws, steps := Go(ws, steps, SetDesired(second.row)); }
    forall i | 0 <= i < |ws| ensures !AtPc(ws[i], name, InCycle) {
      assert ws[0] == w;
    }
  }

  lemma {:induction false} Joined(ws: seq<World>, steps: seq<Step>, ws': seq<World>, steps': seq<Step>, name: string)
    requires Path(ws, steps) && Path(ws', steps') && ws[|steps|] == ws'[0]
    ensures Path(ws + ws'[1..], steps + steps') && (ws + ws'[1..])[0] == ws[0]
    ensures (ws + ws'[1..])[|steps| + |steps'|] == ws'[|steps'|]
    ensures Worked(ws + ws'[1..], name) <==> Worked(ws, name) || Worked(ws', name)
  {
    var all, both := ws + ws'[1..], steps + steps';
    forall i | 0 <= i < |both| ensures Enabled(all[i], both[i]) && all[i + 1] == After(all[i], both[i]) {
      if i < |steps| {
        assert both[i] == steps[i] && all[i] == ws[i] && all[i + 1] == ws[i + 1];
      } else {
        assert both[i] == steps'[i - |steps|] && all[i] == ws'[i - |steps|] && all[i + 1] == ws'[i - |steps| + 1];
      }
    }
    if i :| 0 <= i < |ws| && AtPc(ws[i], name, InCycle) { assert AtPc(all[i], name, InCycle); }
    if i :| 0 <= i < |ws'| && AtPc(ws'[i], name, InCycle) { assert AtPc(all[|steps| + i], name, InCycle); }
    if i :| 0 <= i < |all| && AtPc(all[i], name, InCycle) {
      assert i < |ws| || AtPc(ws'[i - |steps|], name, InCycle);
    }
  }

  /** The end of a cycle, refused or not. */
  lemma {:induction false} Leaving(w: World, name: string, unlockFails: bool) returns (ws: seq<World>, steps: seq<Step>)
    requires (AtPc(w, name, InCycle) || AtPc(w, name, Refused)) && w.replicas[name].locks > 0
    ensures Path(ws, steps) && ws[0] == w && (Worked(ws, name) <==> AtPc(w, name, InCycle))
    ensures var r, leak := w.replicas[name], if unlockFails then 1 else 0;
      ws[|ws| - 1] == w.(replicas := w.replicas[name := Replica(Idle, r.locks - 1 + leak, r.leaked + leak)])
  {
    if AtPc(w, name, InCycle) {
      ws, steps := Go([w], [], if unlockFails then LeaveUnlockFails(name) else Leave(name));
      assert AtPc(ws[0], name, InCycle);
    } else {
      ws, steps := Go([w], [], if unlockFails then ReleaseRefusedFails(name) else ReleaseRefused(name));
    }
  }

  /** What follows for a replica that holds the lock: its second check and, unless that raises, the release. */
  lemma {:induction false} Checked(w: World, name: string, second: Read, unlockFails: bool)
    returns (ws: seq<World>, steps: seq<Step>)
    requires AtPc(w, name, Holding) && !w.exclusive && w.replicas[name].locks > 0 && (second.Got? ==> w.row == second.row)
    ensures Path(ws, steps) && ws[0] == w && (Worked(ws, name) <==> SawWork(second))
    ensures var r, leak := w.replicas[name], if second.Raises? || unlockFails then 1 else 0;
      ws[|ws| - 1] == w.(replicas := w.replicas[name := Replica(Idle, r.locks - 1 + leak, r.leaked + leak)])
  {
    if second.Raises? {
      ws, steps := Go([w], [], RecheckRaises(name));
    } else {
      ws, steps := Go([w], [], Recheck(name));
      var ws', steps' := Leaving(ws[1], name, unlockFails);
      Joined(ws, steps, ws', steps', name);
      ws, steps := ws + ws'[1..], steps + steps';
    }
  }

  /** From a world in which the exclusive lock is free and the replica between cycles: whatever its two reads say and
      whether or not its unlock fails, there is a cycle of its own. It works in it if and only if both reads saw a working
      state; and afterwards it stands between cycles with the locks it had and those that `WorkCycle` leaks, everyone else
      being as before. */
  lemma {:induction false} CycleIsWorkCycle(w: World, name: string, second: Read, unlockFails: bool)
    returns (ws: seq<World>, steps: seq<Step>)
    requires AtPc(w, name, Idle) && !w.exclusive
    ensures Path(ws, steps) && ws[0] == w
    ensures Worked(ws, name) <==> SawWork(Got(w.row)) && SawWork(second)
    ensures var r, leak := w.replicas[name], Leaks(w.row, second, unlockFails);
      && ws[|ws| - 1].replicas == w.replicas[name := Replica(Idle, r.locks + leak, r.leaked + leak)]
      && !ws[|ws| - 1].exclusive
  {
    if !SawWork(Got(w.row)) {
      ws, steps := Go([w], [], FirstCheck(name));
    } else {
      ws, steps := Entering(w, name, second);
      var ws', steps' := Checked(ws[|ws| - 1], name, second, unlockFails);
      Joined(ws, steps, ws', steps', name);
      ws, steps := ws + ws'[1..], steps + steps';
    }
  }
}
