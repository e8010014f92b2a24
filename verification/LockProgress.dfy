/** Nobody is locked out: from every reachable world, whoever waits for the lock can still be served, by
    steps of the present holder and its own alone, and its command takes effect as if it ran by itself. */
module LockProgress {
  import opened Prelude
  import opened LockedStore

  /** A stretch of a run, from any world. */
  ghost predicate Path<C(!new), S(!new)>(
    run: (C, S) -> Option<S>, default: S, worlds: seq<World<C, S>>, steps: seq<Step<C>>)
  {
    && |worlds| == |steps| + 1
    && forall i :: 0 <= i < |steps| ==> Next(run, default, worlds[i], steps[i], worlds[i + 1])
  }

  /** A step process `p` takes in the ordinary course of `WithLock`: it neither fails nor crashes. */
  ghost predicate OwnStep<C>(step: Step<C>, p: nat) {
    match step
    case Acquire(q) => q == p
    case LoadState(q) => q == p
    case RunFunction(q) => q == p
    case OpenTmp(q, _) => q == p
    case WriteTmp(q) => q == p
    case Rename(q) => q == p
    case Release(q) => q == p
    case _ => false
  }

  /** How many steps are left at most. */
  ghost function ToGo<S>(phase: Phase<S>): nat {
    match phase
    case Waiting => 7
    case Holding => 6
    case Loaded(_) => 5
    case Ran(_) => 4
    case Writing(_) => 3
    case Written(_) => 2
    case Renamed => 1
    case _ => 0
  }

  /** The state every load sees now. */
  ghost function Committed<C, S>(run: (C, S) -> Option<S>, init: S, w: World<C, S>): S
    requires LogKnown(w)
  {
    Serial(run, w.processes, init, w.log)
  }

  /** What becomes of `p` between `w` and `w'`: its command is carried out on the committed state, committed
      and reported as a success, or fails on it, changes nothing and is reported so. */
  ghost predicate Served<C(!new), S(!new)>(
    run: (C, S) -> Option<S>, default: S, init: S, w: World<C, S>, p: nat, w': World<C, S>)
    requires LogKnown(w) && p in w.processes
  {
    var outcome := run(w.processes[p].command, Committed(run, init, w));
    && p in w'.processes && w'.lock == None
    && w'.processes[p].phase == Returned(outcome.Some?)
    && w'.log == (if outcome.Some? then w.log + [p] else w.log)
    && Parse(w'.inodes, w'.file, default) == Some(if outcome.Some? then outcome.value else Committed(run, init, w))
  }

  lemma {:induction false} UnusedInode(used: set<nat>) returns (n: nat)
    ensures forall i :: i in used ==> i < n
    decreases |used|
  {
    n := 0;
    if used != {} {
      var i :| i in used;
      var m := UnusedInode(used - {i});
      n := if m > i then m else i + 1;
      assert forall j :: j in used ==> j == i || j in used - {i};
    }
  }

  lemma CommittedIsLast<C(!new), S(!new)>(run: (C, S) -> Option<S>, init: S, w: World<C, S>)
    requires LogKnown(w)
    ensures Commits(run, w, init, |w.log|) == Committed(run, init, w)
  {
    assert w.log[..|w.log|] == w.log;
  }

  /** A process that has its result can open the temporary file, write it, and rename it. */
  lemma CanSave<C(!new), S(!new)>(run: (C, S) -> Option<S>, default: S, init: S, w: World<C, S>, p: nat)
    returns (step: Step<C>, w': World<C, S>)
    requires Inv(run, default, init, w) && p in w.processes
    requires var phase := w.processes[p].phase; phase.Ran? || phase.Writing? || phase.Written?
    ensures Next(run, default, w, step, w') && OwnStep(step, p) && p in w'.processes
    ensures match w.processes[p].phase
            case Ran(next) => !step.Rename? && w'.processes[p].phase == Writing(next)
            case Writing(next) => !step.Rename? && w'.processes[p].phase == Written(next)
            case _ => step.Rename? && w'.processes[p].phase == Renamed
  {
    hide Commits, LogInv, ReadersInv, CommitsRan, Parse;
    match w.processes[p].phase
    case Ran(next) =>
      var unused := UnusedInode(w.inodes.Keys);
      var inode := if w.tmp.Some? then w.tmp.value else unused;
      step := OpenTmp(p, unused);
      w' := Moved(w, p, Writing(next)).(tmp := Some(inode), inodes := w.inodes[inode := Torn]);
    case Writing(next) =>
      step := WriteTmp(p);
      w' := Moved(w, p, Written(next)).(inodes := w.inodes[w.tmp.value := Whole(next)]);
    case Written(_) =>
      step := Rename(p);
      w' := Moved(w, p, Renamed).(file := w.tmp, tmp := None, log := w.log + [p]);
  }

  /** One that waits while the lock is free can take it, and the holder can load, run its function, and let go. */
  lemma CanRun<C(!new), S(!new)>(run: (C, S) -> Option<S>, default: S, init: S, w: World<C, S>, p: nat)
    returns (step: Step<C>, w': World<C, S>)
    requires Inv(run, default, init, w) && p in w.processes
    requires var phase := w.processes[p].phase;
             (phase.Waiting? && w.lock == None) || phase.Holding? || phase.Loaded? || phase.Renamed?
    ensures Next(run, default, w, step, w') && OwnStep(step, p) && p in w'.processes && !step.Rename?
    ensures match w.processes[p].phase
            case Waiting => w'.processes[p].phase.Holding?
            case Holding => w'.processes[p].phase.Loaded?
            case Loaded(s) =>
              (match run(w.processes[p].command, Commits(run, w, init, |w.log|))
               case Some(next) => w'.processes[p].phase == Ran(next)
               case None => w'.processes[p].phase == Returned(false) && w'.lock == None)
            case _ => w'.processes[p].phase == Returned(true) && w'.lock == None
  {
    hide Commits, LogInv, ReadersInv, CommitsRan;
    match w.processes[p].phase
    case Waiting =>
      step := Acquire(p);
      w' := Moved(w, p, Holding).(lock := Some(p), acquired := w.acquired + [p]);
    case Holding =>
      step := LoadState(p);
      w' := Moved(w, p, Loaded(Parse(w.inodes, w.file, default).value));
    case Loaded(s) =>
      step := RunFunction(p);
      w' := match run(w.processes[p].command, s)
            case Some(next) => Moved(w, p, Ran(next))
            case None => Left(w, p, Returned(false));
    case Renamed =>
      step := Release(p);
      w' := Left(w, p, Returned(true));
  }

  /** One own step, seen from the state everyone loads. */
  lemma StepTowardsServed<C(!new), S(!new)>(
    run: (C, S) -> Option<S>, default: S, init: S, w: World<C, S>, p: nat, step: Step<C>, w': World<C, S>)
    requires Inv(run, default, init, w) && Next(run, default, w, step, w') && OwnStep(step, p)
    ensures LogKnown(w') && p in w.processes && p in w'.processes
    ensures w'.processes[p].command == w.processes[p].command
    ensures step.Rename? ==>
              && w'.log == w.log + [p]
              && run(w.processes[p].command, Committed(run, init, w)) == Some(Committed(run, init, w'))
    ensures !step.Rename? ==> w'.log == w.log && Committed(run, init, w') == Committed(run, init, w)
  {
    CommandStays(run, default, w, step, w', p);
    CommandsStay(run, default, w, step, w');
    CommitsStay(run, init, w, w');
    CommittedIsLast(run, init, w);
    CommittedIsLast(run, init, w');
    LogGrows(run, default, w, step, w');
    if step.Rename? {
      RenameCommits(run, default, init, w, p, w');
      RenamedRan(run, default, init, w, p, w');
    }
    hide Next, Inv, Commits, Committed;
  }

  /** What becomes of a process that finishes: it is served, or has only to let go when it has renamed already. */
  ghost predicate Finished<C(!new), S(!new)>(
    run: (C, S) -> Option<S>, default: S, init: S, w: World<C, S>, p: nat, w': World<C, S>)
    requires LogKnown(w) && p in w.processes
  {
    if w.processes[p].phase.Renamed? then
      && p in w'.processes && w'.lock == None && w'.processes[p].phase == Returned(true) && w'.log == w.log
      && Parse(w'.inodes, w'.file, default) == Some(Committed(run, init, w))
    else Served(run, default, init, w, p, w')
  }

  /** A process in the critical section, or one that waits while the lock is free, has a step to take. */
  lemma CanStep<C(!new), S(!new)>(run: (C, S) -> Option<S>, default: S, init: S, w: World<C, S>, p: nat)
    returns (step: Step<C>, w1: World<C, S>)
    requires Inv(run, default, init, w) && p in w.processes
    requires InCritical(w.processes[p].phase) || (w.processes[p].phase.Waiting? && w.lock == None)
    ensures Next(run, default, w, step, w1) && OwnStep(step, p) && p in w1.processes
    ensures ToGo(w1.processes[p].phase) < ToGo(w.processes[p].phase)
    ensures step.Rename? <==> w1.processes[p].phase.Renamed?
    ensures InCritical(w1.processes[p].phase) ==> !w.processes[p].phase.Renamed?
    ensures !InCritical(w1.processes[p].phase) ==>
              && w1.lock == None
              && w1.processes[p].phase == Returned(w.processes[p].phase.Renamed?)
              && (!w.processes[p].phase.Renamed? ==>
                    run(w.processes[p].command, Commits(run, w, init, |w.log|)) == None)
  {
    var phase := w.processes[p].phase;
    if phase.Ran? || phase.Writing? || phase.Written? {
      step, w1 := CanSave(run, default, init, w, p);
    } else {
      step, w1 := CanRun(run, default, init, w, p);
    }
    hide Next, Inv, Commits;
  }

  /** What a process comes to after a step of its own, it comes to from before it. */
  lemma FinishCarries<C(!new), S(!new)>(
    run: (C, S) -> Option<S>, default: S, init: S, w: World<C, S>, p: nat, step: Step<C>, w1: World<C, S>,
    w': World<C, S>)
    requires Inv(run, default, init, w) && Next(run, default, w, step, w1) && OwnStep(step, p) && p in w1.processes
    requires LogKnown(w1) && p in w.processes && !w.processes[p].phase.Renamed?
    requires step.Rename? <==> w1.processes[p].phase.Renamed?
    requires Finished(run, default, init, w1, p, w')
    ensures Finished(run, default, init, w, p, w')
  {
    StepTowardsServed(run, default, init, w, p, step, w1);
    hide Next, Inv, Committed, Parse;
  }

  /** A process whose own step takes it out of the lock has finished. */
  lemma LeavesFinished<C(!new), S(!new)>(
    run: (C, S) -> Option<S>, default: S, init: S, w: World<C, S>, p: nat, step: Step<C>, w1: World<C, S>)
    requires Inv(run, default, init, w) && Next(run, default, w, step, w1) && OwnStep(step, p) && !step.Rename?
    requires p in w.processes && p in w1.processes && w1.lock == None
    requires w1.processes[p].phase == Returned(w.processes[p].phase.Renamed?)
    requires !w.processes[p].phase.Renamed? ==>
               run(w.processes[p].command, Commits(run, w, init, |w.log|)) == None
    ensures Finished(run, default, init, w, p, w1)
  {
    StepTowardsServed(run, default, init, w, p, step, w1);
    StepKeepsInv(run, default, init, w, step, w1);
    CommittedIsLast(run, init, w);
    CommittedIsLast(run, init, w1);
    hide Next, LogInv, LockInv, CommitsRan, ReadersInv, HolderInv, Commits, Committed, Parse;
  }

  /** The holder of the lock can always finish by steps of its own, and is served as though alone. */
  lemma {:induction false} HolderCanFinish<C(!new), S(!new)>(
    run: (C, S) -> Option<S>, default: S, init: S, w: World<C, S>, p: nat)
    returns (worlds: seq<World<C, S>>, steps: seq<Step<C>>)
    requires Inv(run, default, init, w) && p in w.processes
    requires InCritical(w.processes[p].phase) || (w.processes[p].phase.Waiting? && w.lock == None)
    ensures Path(run, default, worlds, steps) && worlds[0] == w
    ensures forall step :: step in steps ==> OwnStep(step, p)
    ensures Finished(run, default, init, w, p, worlds[|steps|])
    decreases ToGo(w.processes[p].phase)
  {
    var step, w1 := CanStep(run, default, init, w, p);
    StepKeepsInv(run, default, init, w, step, w1);
    hide Next, LockInv, CommitsRan, FileInv, ReadersInv, HolderInv, Finished, Commits;
    if InCritical(w1.processes[p].phase) {
      var ws, ss := HolderCanFinish(run, default, init, w1, p);
      worlds, steps := [w] + ws, [step] + ss;
      PathCons(run, default, w, step, ws, ss);
      FinishCarries(run, default, init, w, p, step, w1, worlds[|steps|]);
    } else {
      LeavesFinished(run, default, init, w, p, step, w1);
      worlds, steps := [w, w1], [step];
    }
  }

  lemma PathCons<C(!new), S(!new)>(
    run: (C, S) -> Option<S>, default: S, w: World<C, S>, step: Step<C>, ws: seq<World<C, S>>, ss: seq<Step<C>>)
    requires Path(run, default, ws, ss) && Next(run, default, w, step, ws[0])
    ensures Path(run, default, [w] + ws, [step] + ss)
  {
    hide Next;
  }

  /** A process gives up or crashes, whatever it was doing: nothing is committed, no one else notices, and the
      lock is free if it was held. */
  lemma AnyoneCanGiveUp<C(!new), S(!new)>(
    run: (C, S) -> Option<S>, default: S, init: S, w: World<C, S>, p: nat, crash: bool) returns (w': World<C, S>)
    requires Inv(run, default, init, w) && p in w.processes
    requires w.processes[p].phase.Waiting? || InCritical(w.processes[p].phase)
    requires w.processes[p].phase.Renamed? ==> crash
    ensures Next(run, default, w, if crash then Crash(p) else Fail(p), w') && Inv(run, default, init, w')
    ensures w'.processes.Keys == w.processes.Keys
    ensures w'.processes[p].phase == if crash then Crashed else Returned(false)
    ensures forall q :: q in w.processes && q != p ==> w'.processes[q] == w.processes[q]
    ensures w'.lock == if w.lock == Some(p) then None else w.lock
    ensures w'.log == w.log && Committed(run, init, w') == Committed(run, init, w)
  {
    w' := Left(w, p, if crash then Crashed else Returned(false));
    var step := if crash then Crash(p) else Fail(p);
    StepKeepsInv(run, default, init, w, step, w');
    SerialIgnoresPhases(run, w.processes, w'.processes, init, w.log);
    hide Inv, Next;
  }

  /** A `Load` without the lock can be made at any moment, and returns the committed state. */
  lemma LoadIsServed<C(!new), S(!new)>(run: (C, S) -> Option<S>, default: S, init: S, w: World<C, S>, r: nat)
    returns (open: World<C, S>, read: World<C, S>)
    requires Inv(run, default, init, w) && r !in w.readers
    ensures Next(run, default, w, OpenFile(r), open) && Next(run, default, open, ReadFile(r), read)
    ensures read == w.(readers := w.readers[r := Done(Some(Committed(run, init, w)), |w.log|)])
  {
    CommittedIsLast(run, init, w);
    open := w.(readers := w.readers[r := Opened(w.file, |w.log|)]);
    read := w.(readers := w.readers[r := Done(Some(Committed(run, init, w)), |w.log|)]);
    hide LogInv, LockInv, CommitsRan, ReadersInv, HolderInv, Committed;
    assert open.readers[r := Done(Some(Committed(run, init, w)), |w.log|)] == read.readers;
  }

  lemma RunAppend<C(!new), S(!new)>(
    run: (C, S) -> Option<S>, default: S, init: S, worlds: seq<World<C, S>>, steps: seq<Step<C>>,
    ws: seq<World<C, S>>, ss: seq<Step<C>>)
    requires Run(run, default, init, worlds, steps) && Path(run, default, ws, ss) && ws[0] == worlds[|steps|]
    ensures Run(run, default, init, worlds + ws[1..], steps + ss)
    ensures (worlds + ws[1..])[|steps| + |ss|] == ws[|ss|]
  {
    hide Next, Start;
    var all, on := worlds + ws[1..], steps + ss;
    forall i | 0 <= i < |on|
      ensures Next(run, default, all[i], on[i], all[i + 1])
    {
      assert i >= |steps| ==> all[i] == ws[i - |steps|] && on[i] == ss[i - |steps|];
    }
  }

  /** The ways out of the lock in one step: done, failed or crashed. */
  ghost predicate LetsGo<C, S>(w: World<C, S>, step: Step<C>) {
    && w.lock.Some? && w.lock.value in w.processes
    && (step == Crash(w.lock.value)
        || step == if w.processes[w.lock.value].phase.Renamed? then Release(w.lock.value) else Fail(w.lock.value))
  }

  lemma HolderLetsGo<C(!new), S(!new)>(
    run: (C, S) -> Option<S>, default: S, init: S, w: World<C, S>, step: Step<C>) returns (w': World<C, S>)
    requires Inv(run, default, init, w) && LetsGo(w, step)
    ensures Next(run, default, w, step, w') && Inv(run, default, init, w')
    ensures w'.lock == None && w'.processes.Keys == w.processes.Keys
    ensures forall q :: q in w.processes && w.lock != Some(q) ==> w'.processes[q] == w.processes[q]
    ensures w'.log == w.log && Committed(run, init, w') == Committed(run, init, w)
  {
    var p := w.lock.value;
    if step.Release? {
      w' := Left(w, p, Returned(true));
      StepKeepsInv(run, default, init, w, step, w');
      SerialIgnoresPhases(run, w.processes, w'.processes, init, w.log);
    } else {
      w' := AnyoneCanGiveUp(run, default, init, w, p, step.Crash?);
    }
    hide Inv, Next;
  }

  /** No process waits in vain. In any run, if some process waits, then once the present holder, if any, is out
      of the lock, in whichever way, steps of the waiting process alone take it through: its command takes
      effect on the committed state, is saved and reported, or fails on that state and changes nothing. */
  lemma EveryWaiterIsServed<C(!new), S(!new)>(
    run: (C, S) -> Option<S>, default: S, init: S, worlds: seq<World<C, S>>, steps: seq<Step<C>>,
    p: nat, out: Step<C>)
    returns (more: seq<World<C, S>>, own: seq<Step<C>>)
    requires Run(run, default, init, worlds, steps)
    requires p in worlds[|steps|].processes && worlds[|steps|].processes[p].phase.Waiting?
    requires worlds[|steps|].lock.Some? ==> LetsGo(worlds[|steps|], out)
    ensures forall step :: step in own ==> OwnStep(step, p)
    ensures var w := worlds[|steps|];
            var after := (if w.lock.Some? then [out] else []) + own;
            && Run(run, default, init, worlds + more, steps + after)
            && LogKnown(w) && Served(run, default, init, w, p, (worlds + more)[|steps| + |after|])
  {
    var w := worlds[|steps|];
    RunKeepsInv(run, default, init, worlds, steps, |steps|);
    var ws, ss;
    if w.lock.Some? {
      var w1 := HolderLetsGo(run, default, init, w, out);
      assert w.lock != Some(p);
      ws, own := HolderCanFinish(run, default, init, w1, p);
      PathCons(run, default, w, out, ws, own);
      ws, ss := [w] + ws, [out] + own;
    } else {
      ws, own := HolderCanFinish(run, default, init, w, p);
      ss := own;
      assert [] + own == own;
    }
    more := ws[1..];
    hide Inv, Next, Run, Path, Committed, Parse;
    RunAppend(run, default, init, worlds, steps, ws, ss);
  }
}
