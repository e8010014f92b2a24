/** The peer store under `WithLock`: every state that can ever be loaded is free of clashes and holds only keys
    that parse, and every command can be carried out in every run. */
module StoreRuns {
  import opened Prelude
  import opened PeerStore
  import L = LockedStore
  import LockProgress

  lemma LoadedStatesAreUnique(
    validKey: string -> bool, default: State, init: State,
    worlds: seq<L.World<Command, State>>, steps: seq<L.Step<Command>>, n: nat)
    requires L.Run((c, s) => Exec(validKey, c, s), default, init, worlds, steps) && n <= |steps|
    requires Unique(init)
    ensures var w := worlds[n];
            && (L.Parse(w.inodes, w.file, default).Some? && Unique(L.Parse(w.inodes, w.file, default).value))
            && (forall r :: r in w.readers && w.readers[r].Done? ==>
                  w.readers[r].result.Some? && Unique(w.readers[r].result.value))
  {
    var run: (Command, State) -> Option<State> := (c, s) => Exec(validKey, c, s);
    var w := worlds[n];
    L.EveryRunIsSerial(run, default, init, worlds, steps, n);
    forall c
      ensures L.Preserves(run, Unique, c)
    {
      forall s | Unique(s) && run(c, s).Some?
        ensures Unique(run(c, s).value)
      {
        ExecKeepsUnique(validKey, c, s);
      }
    }
    L.SerialKeeps(run, Unique, w.processes, init, w.log);
    forall r | r in w.readers && w.readers[r].Done?
      ensures Unique(w.readers[r].result.value)
    {
      L.SerialKeeps(run, Unique, w.processes, init, w.log[..w.readers[r].since]);
    }
  }

  /** From a store whose keys parse, no load, locked or not, ever returns one that does not. */
  lemma LoadedKeysParse(
    validKey: string -> bool, default: State, init: State,
    worlds: seq<L.World<Command, State>>, steps: seq<L.Step<Command>>, n: nat)
    requires L.Run((c, s) => Exec(validKey, c, s), default, init, worlds, steps) && n <= |steps|
    requires KeysParse(validKey, init)
    ensures var w := worlds[n];
            && (L.Parse(w.inodes, w.file, default).Some? &&
                KeysParse(validKey, L.Parse(w.inodes, w.file, default).value))
            && (forall r :: r in w.readers && w.readers[r].Done? ==>
                  w.readers[r].result.Some? && KeysParse(validKey, w.readers[r].result.value))
  {
    var run: (Command, State) -> Option<State> := (c, s) => Exec(validKey, c, s);
    var good: State -> bool := s => KeysParse(validKey, s);
    var w := worlds[n];
    L.EveryRunIsSerial(run, default, init, worlds, steps, n);
    forall c
      ensures L.Preserves(run, good, c)
    {
      forall s | good(s) && run(c, s).Some?
        ensures good(run(c, s).value)
      {
        ExecKeepsKeysParse(validKey, c, s);
      }
    }
    L.SerialKeeps(run, good, w.processes, init, w.log);
    forall r | r in w.readers && w.readers[r].Done?
      ensures good(w.readers[r].result.value)
    {
      L.SerialKeeps(run, good, w.processes, init, w.log[..w.readers[r].since]);
    }
  }

  /** At any moment of any run anyone can start any command, and it can be carried out: once the present holder
      of the lock, if any, is out of it, the command's own steps take it from the state committed now to a
      report, and leave in state.json what it makes of that state. */
  lemma EveryCommandIsServed(
    validKey: string -> bool, default: State, init: State,
    worlds: seq<L.World<Command, State>>, steps: seq<L.Step<Command>>, p: nat, c: Command, out: L.Step<Command>)
    returns (more: seq<L.World<Command, State>>, own: seq<L.Step<Command>>, ok: bool)
    requires L.Run((c, s) => Exec(validKey, c, s), default, init, worlds, steps)
    requires p !in worlds[|steps|].processes
    requires worlds[|steps|].lock.Some? ==> LockProgress.LetsGo(worlds[|steps|], out)
    ensures forall step :: step in own ==> LockProgress.OwnStep(step, p)
    ensures |more| == (if worlds[|steps|].lock.Some? then 2 else 1) + |own|
    ensures var w := worlds[|steps|];
            var after := [L.Spawn(p, c)] + ((if w.lock.Some? then [out] else []) + own);
            var w' := (worlds + more)[|steps| + |after|];
            && L.Run((c, s) => Exec(validKey, c, s), default, init, worlds + more, steps + after)
            && w'.lock == None && p in w'.processes && w'.processes[p].phase == L.Returned(ok)
            && w'.log == (if ok then w.log + [p] else w.log)
            && L.Parse(w.inodes, w.file, default).Some? && L.Parse(w'.inodes, w'.file, default).Some?
            && CarriedOut(validKey, c, L.Parse(w.inodes, w.file, default).value, ok,
                          L.Parse(w'.inodes, w'.file, default).value)
  {
    var run: (Command, State) -> Option<State> := (c, s) => Exec(validKey, c, s);
    var w := worlds[|steps|];
    var waits := StartsToWait(run, default, init, worlds, steps, p, c);
    ExecIsCarriedOut(validKey, c, L.Serial(run, w.processes, init, w.log));
    hide L.Next, L.Start, L.Serial, L.Parse, Exec, CarriedOut, L.Run, LockProgress.OwnStep;
    var on;
    on, own := LockProgress.EveryWaiterIsServed(run, default, init, worlds + [waits], steps + [L.Spawn(p, c)], p, out);
    more := [waits] + on;
    ok := run(c, L.Serial(run, w.processes, init, w.log)).Some?;
    assert worlds + [waits] + on == worlds + more;
    var after := (if w.lock.Some? then [out] else []) + own;
    assert steps + [L.Spawn(p, c)] + after == steps + ([L.Spawn(p, c)] + after);
  }

  lemma StartsToWait(
    run: (Command, State) -> Option<State>, default: State, init: State,
    worlds: seq<L.World<Command, State>>, steps: seq<L.Step<Command>>, p: nat, c: Command)
    returns (waits: L.World<Command, State>)
    requires L.Run(run, default, init, worlds, steps) && p !in worlds[|steps|].processes
    ensures var w := worlds[|steps|];
            && waits == w.(processes := w.processes[p := L.Process(c, L.Waiting)])
            && L.Run(run, default, init, worlds + [waits], steps + [L.Spawn(p, c)])
            && L.LogKnown(w) && L.LogKnown(waits) && w.lock != Some(p)
            && L.Serial(run, waits.processes, init, waits.log) == L.Serial(run, w.processes, init, w.log)
            && L.Parse(w.inodes, w.file, default) == Some(L.Serial(run, w.processes, init, w.log))
  {
    var w := worlds[|steps|];
    waits := w.(processes := w.processes[p := L.Process(c, L.Waiting)]);
    L.EveryRunIsSerial(run, default, init, worlds, steps, |steps|);
    L.RunKeepsInv(run, default, init, worlds, steps, |steps|);
    L.SerialIgnoresPhases(run, w.processes, waits.processes, init, w.log);
    assert L.LockInv(w) && L.Next(run, default, w, L.Spawn(p, c), waits);
    hide L.Next, L.Start, L.Inv;
  }
}
