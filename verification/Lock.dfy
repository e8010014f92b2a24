/** `WithLock` as a protocol: any number of processes, interleaved step by step over a shared lock
    and file system, any of them failing or crashing at any point, beside readers that take no lock.

    `S` is a state as `Load` returns it, `C` a command, and `run(c, s)` what the locked function of
    command `c` makes of `s`, or None when it returns an error. */
module LockedStore {
  import opened Prelude

  /** Where a process stands in `WithLock`. */
  datatype Phase<S> =
    | Waiting             // before flock returns
    | Holding             // lock held, nothing loaded
    | Loaded(s: S)
    | Ran(next: S)        // the function succeeded and left `next`
    | Writing(next: S)    // the temporary file is open and truncated
    | Written(next: S)    // the temporary file is complete
    | Renamed             // the rename has happened, the lock is still held
    | Returned(ok: bool)  // the lock is released
    | Crashed

  datatype Process<C, S> = Process(command: C, phase: Phase<S>)

  /** A file's content: a whole state, or whatever an unfinished write leaves. */
  datatype Content<S> = Torn | Whole(s: S)

  /** A lock-free `Load`: it opens the file, and reads the inode it opened some time later. `since` is
      how many commits had been made when it opened the file. */
  datatype Reader<S> = Opened(inode: Option<nat>, since: nat) | Done(result: Option<S>, since: nat)

  datatype World<C, S> = World(
    processes: map<nat, Process<C, S>>,
    readers: map<nat, Reader<S>>,
    lock: Option<nat>,             // the process holding the flock
    file: Option<nat>,             // the inode linked as state.json
    tmp: Option<nat>,              // the inode linked as state.json.tmp
    inodes: map<nat, Content<S>>,
    acquired: seq<nat>,            // the processes that got the lock, in order
    log: seq<nat>)                 // the processes that renamed, in order

  /** Reading an inode, or the default state where there is no file; None when the text does not parse. */
  function Parse<S>(inodes: map<nat, Content<S>>, inode: Option<nat>, default: S): Option<S> {
    if inode == None then Some(default)
    else if inode.value in inodes && inodes[inode.value].Whole? then Some(inodes[inode.value].s)
    else None
  }

  ghost predicate InCritical<S>(phase: Phase<S>) {
    !phase.Waiting? && !phase.Returned? && !phase.Crashed?
  }

  datatype Step<C> =
    | Spawn(p: nat, c: C) | Acquire(p: nat) | LoadState(p: nat) | RunFunction(p: nat)
    | OpenTmp(p: nat, unused: nat) | WriteTmp(p: nat) | Rename(p: nat) | Release(p: nat)
    | Fail(p: nat) | Crash(p: nat)
    | OpenFile(r: nat) | ReadFile(r: nat)

  /** `p` moves on to `phase`. */
  ghost function Moved<C, S>(w: World<C, S>, p: nat, phase: Phase<S>): World<C, S>
    requires p in w.processes
  {
    w.(processes := w.processes[p := w.processes[p].(phase := phase)])
  }

  /** `p` leaves `WithLock`, releasing the lock if it holds it. */
  ghost function Left<C, S>(w: World<C, S>, p: nat, phase: Phase<S>): World<C, S>
    requires p in w.processes
  {
    Moved(w, p, phase).(lock := if w.lock == Some(p) then None else w.lock)
  }

  ghost predicate Next<C(!new), S(!new)>(
    run: (C, S) -> Option<S>, default: S, w: World<C, S>, step: Step<C>, w': World<C, S>)
  {
    match step
    case Spawn(p, c) => p !in w.processes && w' == w.(processes := w.processes[p := Process(c, Waiting)])
    case Acquire(p) =>
      p in w.processes && w.processes[p].phase.Waiting? && w.lock == None &&
      w' == Moved(w, p, Holding).(lock := Some(p), acquired := w.acquired + [p])
    case LoadState(p) =>
      p in w.processes && w.processes[p].phase.Holding? &&
      (match Parse(w.inodes, w.file, default)
       case Some(s) => w' == Moved(w, p, Loaded(s))
       case None => w' == Left(w, p, Returned(false)))
    case RunFunction(p) =>
      p in w.processes && w.processes[p].phase.Loaded? &&
      (match run(w.processes[p].command, w.processes[p].phase.s)
       case Some(next) => w' == Moved(w, p, Ran(next))
       case None => w' == Left(w, p, Returned(false)))
    case OpenTmp(p, unused) =>
      p in w.processes && w.processes[p].phase.Ran? &&
      unused !in w.inodes &&
      var inode := if w.tmp.Some? then w.tmp.value else unused;
      w' == Moved(w, p, Writing(w.processes[p].phase.next)).(tmp := Some(inode), inodes := w.inodes[inode := Torn])
    case WriteTmp(p) =>
      p in w.processes && w.processes[p].phase.Writing? && w.tmp.Some? &&
      w' == Moved(w, p, Written(w.processes[p].phase.next)).(
              inodes := w.inodes[w.tmp.value := Whole(w.processes[p].phase.next)])
    case Rename(p) =>
      p in w.processes && w.processes[p].phase.Written? && w.tmp.Some? &&
      w' == Moved(w, p, Renamed).(file := w.tmp, tmp := None, log := w.log + [p])
    case Release(p) =>
      p in w.processes && w.processes[p].phase.Renamed? && w' == Left(w, p, Returned(true))
    case Fail(p) =>
      p in w.processes && !w.processes[p].phase.Renamed? &&
      (w.processes[p].phase.Waiting? || InCritical(w.processes[p].phase)) && w' == Left(w, p, Returned(false))
    case Crash(p) =>
      p in w.processes && !w.processes[p].phase.Returned? && w' == Left(w, p, Crashed)
    case OpenFile(r) =>
      r !in w.readers && w' == w.(readers := w.readers[r := Opened(w.file, |w.log|)])
    case ReadFile(r) =>
      r in w.readers && w.readers[r].Opened? &&
      w' == w.(readers := w.readers[r := Done(Parse(w.inodes, w.readers[r].inode, default), w.readers[r].since)])
  }

  /** Before any process: no file, or one holding `init`; a torn temporary file may be left over. */
  ghost predicate Start<C, S>(default: S, init: S, w: World<C, S>) {
    && w.processes == map[] && w.readers == map[] && w.lock == None && w.acquired == [] && w.log == []
    && Parse(w.inodes, w.file, default) == Some(init)
    && (w.tmp.Some? ==> w.tmp.value in w.inodes && w.tmp != w.file)
    && (w.file.Some? ==> w.file.value in w.inodes)
  }

  /** The serial execution the protocol has to amount to: the logged commands, one after the other. */
  ghost function Serial<C, S>(run: (C, S) -> Option<S>, commands: map<nat, Process<C, S>>, init: S, log: seq<nat>): S
    requires forall p :: p in log ==> p in commands
  {
    if log == [] then init
    else
      var p, before := log[|log| - 1], log[..|log| - 1];
      match run(commands[p].command, Serial(run, commands, init, before))
      case Some(s) => s
      case None => Serial(run, commands, init, before)
  }

  ghost predicate LogKnown<C, S>(w: World<C, S>) {
    forall p :: p in w.log ==> p in w.processes
  }

  ghost function Commits<C, S>(run: (C, S) -> Option<S>, w: World<C, S>, init: S, n: nat): S
    requires LogKnown(w) && n <= |w.log|
  {
    Serial(run, w.processes, init, w.log[..n])
  }

  ghost predicate LogDistinct<C, S>(w: World<C, S>) {
    forall i, j :: 0 <= i < j < |w.log| ==> w.log[i] != w.log[j]
  }

  ghost predicate OutcomeOk<S>(phase: Phase<S>, logged: bool) {
    && (phase.Renamed? || phase == Returned(true) ==> logged)
    && (logged ==> phase.Renamed? || phase == Returned(true) || phase.Crashed?)
  }

  /** The log: every process that got past its rename, once; none that reported failure. */
  ghost predicate LogInv<C, S>(w: World<C, S>) {
    && LogKnown(w) && LogDistinct(w)
    && forall p {:trigger w.processes[p]} :: p in w.processes ==> OutcomeOk(w.processes[p].phase, p in w.log)
  }

  ghost predicate LockInv<C, S>(w: World<C, S>) {
    && (w.lock.Some? ==> w.lock.value in w.processes && InCritical(w.processes[w.lock.value].phase))
    && forall p {:trigger w.processes[p]} :: p in w.processes && InCritical(w.processes[p].phase) ==> w.lock == Some(p)
  }

  /** The linked file is never the one being written, and neither is one a reader has open. */
  ghost predicate FileInv<C(!new), S(!new)>(run: (C, S) -> Option<S>, default: S, init: S, w: World<C, S>)
    requires LogKnown(w)
  {
    && (w.file.Some? ==> w.file.value in w.inodes && w.file != w.tmp)
    && (w.tmp.Some? ==> w.tmp.value in w.inodes)
    && Parse(w.inodes, w.file, default) == Some(Commits(run, w, init, |w.log|))
  }

  /** A reader's inode keeps the content it had when the reader opened it, until it is read. */
  ghost predicate ReaderOk<C(!new), S(!new)>(
    run: (C, S) -> Option<S>, default: S, init: S, w: World<C, S>, reader: Reader<S>)
    requires LogKnown(w)
  {
    && reader.since <= |w.log|
    && var seen := Commits(run, w, init, reader.since);
       match reader
       case Opened(inode, _) =>
         && Parse(w.inodes, inode, default) == Some(seen)
         && (inode.Some? ==> inode.value in w.inodes && inode != w.tmp)
       case Done(result, _) => result == Some(seen)
  }

  ghost predicate ReadersInv<C(!new), S(!new)>(run: (C, S) -> Option<S>, default: S, init: S, w: World<C, S>)
    requires LogKnown(w)
  {
    forall r :: r in w.readers ==> ReaderOk(run, default, init, w, w.readers[r])
  }

  /** What the holder of the lock carries follows from the current file and nothing else. */
  ghost predicate HolderInv<C(!new), S(!new)>(run: (C, S) -> Option<S>, init: S, w: World<C, S>)
    requires LogKnown(w)
  {
    w.lock.Some? && w.lock.value in w.processes ==>
      var p := w.processes[w.lock.value];
      var now := Commits(run, w, init, |w.log|);
      match p.phase
      case Loaded(s) => s == now
      case Ran(next) => run(p.command, now) == Some(next)
      case Writing(next) => run(p.command, now) == Some(next) && w.tmp.Some?
      case Written(next) =>
        && run(p.command, now) == Some(next)
        && w.tmp.Some? && w.tmp.value in w.inodes && w.inodes[w.tmp.value] == Whole(next)
      case _ => true
  }

  /** Every logged command succeeded on the state the commands before it left. */
  ghost predicate CommitsRan<C(!new), S(!new)>(run: (C, S) -> Option<S>, init: S, w: World<C, S>)
    requires LogKnown(w)
  {
    forall k {:trigger w.log[k], Commits(run, w, init, k)} :: 0 <= k < |w.log| ==>
      run(w.processes[w.log[k]].command, Commits(run, w, init, k)) == Some(Commits(run, w, init, k + 1))
  }

  ghost predicate Inv<C(!new), S(!new)>(run: (C, S) -> Option<S>, default: S, init: S, w: World<C, S>) {
    && LogInv(w) && LockInv(w) && CommitsRan(run, init, w)
    && FileInv(run, default, init, w) && ReadersInv(run, default, init, w) && HolderInv(run, init, w)
  }

  lemma StartsWell<C(!new), S(!new)>(run: (C, S) -> Option<S>, default: S, init: S, w: World<C, S>)
    requires Start(default, init, w)
    ensures Inv(run, default, init, w)
  {
  }

  /** The serial state depends on the commands of the logged processes alone. */
  lemma {:induction false} SerialIgnoresPhases<C, S>(
    run: (C, S) -> Option<S>, a: map<nat, Process<C, S>>, b: map<nat, Process<C, S>>, init: S, log: seq<nat>)
    requires forall p :: p in log ==> p in a && p in b && a[p].command == b[p].command
    ensures Serial(run, a, init, log) == Serial(run, b, init, log)
    decreases |log|
  {
    if log != [] {
      SerialIgnoresPhases(run, a, b, init, log[..|log| - 1]);
    }
  }

  /** Commands never change, so earlier commits stay what they were. */
  lemma CommitsStay<C(!new), S(!new)>(
    run: (C, S) -> Option<S>, init: S, w: World<C, S>, w': World<C, S>)
    requires LogKnown(w) && w.processes.Keys <= w'.processes.Keys && w.log <= w'.log && LogKnown(w')
    requires forall p :: p in w.processes ==> w'.processes[p].command == w.processes[p].command
    ensures forall n :: 0 <= n <= |w.log| ==> Commits(run, w', init, n) == Commits(run, w, init, n)
  {
    forall n | 0 <= n <= |w.log|
      ensures Commits(run, w', init, n) == Commits(run, w, init, n)
    {
      assert w'.log[..n] == w.log[..n];
      SerialIgnoresPhases(run, w.processes, w'.processes, init, w.log[..n]);
    }
  }

  lemma CommandsStay<C(!new), S(!new)>(
    run: (C, S) -> Option<S>, default: S, w: World<C, S>, step: Step<C>, w': World<C, S>)
    requires LogKnown(w) && Next(run, default, w, step, w')
    ensures w.processes.Keys <= w'.processes.Keys && w.log <= w'.log && LogKnown(w')
    ensures forall p :: p in w.processes ==> w'.processes[p].command == w.processes[p].command
  {
    LogGrows(run, default, w, step, w');
    forall p | p in w.processes
      ensures p in w'.processes && w'.processes[p].command == w.processes[p].command
    {
      CommandStays(run, default, w, step, w', p);
    }
    hide Next;
  }

  lemma CommandStays<C(!new), S(!new)>(
    run: (C, S) -> Option<S>, default: S, w: World<C, S>, step: Step<C>, w': World<C, S>, p: nat)
    requires Next(run, default, w, step, w') && p in w.processes
    ensures p in w'.processes && w'.processes[p].command == w.processes[p].command
  {
    hide Parse;
  }

  lemma LogGrows<C(!new), S(!new)>(
    run: (C, S) -> Option<S>, default: S, w: World<C, S>, step: Step<C>, w': World<C, S>)
    requires Next(run, default, w, step, w')
    ensures w'.log == if step.Rename? then w.log + [step.p] else w.log
    ensures step.Rename? ==> step.p in w.processes
  {
    hide Parse;
  }

  lemma StepKeepsLog<C(!new), S(!new)>(
    run: (C, S) -> Option<S>, default: S, w: World<C, S>, step: Step<C>, w': World<C, S>)
    requires LogInv(w) && LockInv(w) && Next(run, default, w, step, w')
    ensures LogInv(w')
  {
    hide LockInv, Parse;
    if step.Rename? {
      assert step.p !in w.log;
    } else {
      assert w'.log == w.log;
    }
    hide LogDistinct;
    if step.Rename? {
      DistinctSnoc(w, w', step.p);
    } else {
      SameLogDistinct(w, w');
    }
  }

  lemma DistinctSnoc<C, S>(w: World<C, S>, w': World<C, S>, p: nat)
    requires LogDistinct(w) && w'.log == w.log + [p] && p !in w.log
    ensures LogDistinct(w')
  {
  }

  lemma SameLogDistinct<C, S>(w: World<C, S>, w': World<C, S>)
    requires LogDistinct(w) && w'.log == w.log
    ensures LogDistinct(w')
  {
  }

  lemma StepKeepsLock<C(!new), S(!new)>(
    run: (C, S) -> Option<S>, default: S, w: World<C, S>, step: Step<C>, w': World<C, S>)
    requires LockInv(w) && Next(run, default, w, step, w')
    ensures LockInv(w')
  {
    hide Parse;
  }

  /** A commit appends the renaming process's own command to the serial execution. */
  lemma RenameCommits<C(!new), S(!new)>(
    run: (C, S) -> Option<S>, default: S, init: S, w: World<C, S>, p: nat, w': World<C, S>)
    requires Inv(run, default, init, w) && Next(run, default, w, Rename(p), w')
    ensures LogKnown(w') && Commits(run, w', init, |w'.log|) == w.processes[p].phase.next
    ensures Parse(w'.inodes, w'.file, default) == Some(w.processes[p].phase.next)
  {
    assert w'.log[..|w'.log|] == w.log + [p];
    assert (w.log + [p])[..|w.log|] == w.log == w.log[..|w.log|];
    SerialIgnoresPhases(run, w.processes, w'.processes, init, w.log);
  }

  lemma StepKeepsFile<C(!new), S(!new)>(
    run: (C, S) -> Option<S>, default: S, init: S, w: World<C, S>, step: Step<C>, w': World<C, S>)
    requires Inv(run, default, init, w) && Next(run, default, w, step, w')
    ensures LogKnown(w') && FileInv(run, default, init, w')
  {
    CommandsStay(run, default, w, step, w');
    CommitsStay(run, init, w, w');
    if step.Rename? {
      RenameCommits(run, default, init, w, step.p, w');
      hide Commits, LogInv, LockInv, ReadersInv, HolderInv, CommitsRan;
    } else {
      FileStays(run, default, init, w, step, w');
    }
  }

  /** No step but the rename changes what state.json reads as. */
  lemma FileStays<C(!new), S(!new)>(
    run: (C, S) -> Option<S>, default: S, init: S, w: World<C, S>, step: Step<C>, w': World<C, S>)
    requires LogKnown(w) && FileInv(run, default, init, w) && Next(run, default, w, step, w') && !step.Rename?
    ensures w'.log == w.log && w'.file == w.file
    ensures w'.file.Some? ==> w'.file.value in w'.inodes && w'.file != w'.tmp
    ensures w'.tmp.Some? ==> w'.tmp.value in w'.inodes
    ensures Parse(w'.inodes, w'.file, default) == Parse(w.inodes, w.file, default)
  {
    hide Commits;
  }

  /** No step writes to an inode other than the temporary file's, and that one is never reopened
      over an inode in existence. */
  lemma InodesAreStable<C(!new), S(!new)>(
    run: (C, S) -> Option<S>, default: S, w: World<C, S>, step: Step<C>, w': World<C, S>)
    requires Next(run, default, w, step, w')
    ensures forall i :: i in w.inodes && Some(i) != w.tmp ==> i in w'.inodes && w'.inodes[i] == w.inodes[i]
    ensures w'.tmp == w.tmp || w'.tmp == None || w'.tmp.value !in w.inodes
    ensures w'.readers == w.readers || (step.OpenFile? || step.ReadFile?)
  {
    hide Parse;
  }

  lemma ReaderStaysOk<C(!new), S(!new)>(
    run: (C, S) -> Option<S>, default: S, init: S, w: World<C, S>, step: Step<C>, w': World<C, S>, reader: Reader<S>)
    requires Inv(run, default, init, w) && Next(run, default, w, step, w')
    requires ReaderOk(run, default, init, w, reader)
    ensures LogKnown(w') && ReaderOk(run, default, init, w', reader)
  {
    CommandsStay(run, default, w, step, w');
    CommitsStay(run, init, w, w');
    InodesAreStable(run, default, w, step, w');
    hide Next, Commits, LogInv, LockInv, FileInv, ReadersInv, HolderInv, CommitsRan;
  }

  lemma StepKeepsReaders<C(!new), S(!new)>(
    run: (C, S) -> Option<S>, default: S, init: S, w: World<C, S>, step: Step<C>, w': World<C, S>)
    requires Inv(run, default, init, w) && Next(run, default, w, step, w')
    ensures LogKnown(w') && ReadersInv(run, default, init, w')
  {
    CommandsStay(run, default, w, step, w');
    forall r | r in w.readers
      ensures ReaderOk(run, default, init, w', w.readers[r])
    {
      ReaderStaysOk(run, default, init, w, step, w', w.readers[r]);
    }
    if step.OpenFile? {
      ReaderStaysOk(run, default, init, w, step, w', Opened(w.file, |w.log|));
      hide ReaderOk;
    } else if step.ReadFile? {
      ReaderStaysOk(run, default, init, w, step, w', w'.readers[step.r]);
      hide ReaderOk;
    } else {
      InodesAreStable(run, default, w, step, w');
      hide Next, ReaderOk;
    }
  }

  lemma StepKeepsHolder<C(!new), S(!new)>(
    run: (C, S) -> Option<S>, default: S, init: S, w: World<C, S>, step: Step<C>, w': World<C, S>)
    requires Inv(run, default, init, w) && Next(run, default, w, step, w')
    ensures LogKnown(w') && HolderInv(run, init, w')
  {
    CommandsStay(run, default, w, step, w');
    CommitsStay(run, init, w, w');
    if step.Acquire? || step.LoadState? || step.RunFunction? {
      HolderReads(run, default, init, w, step, w');
    } else if step.OpenTmp? || step.WriteTmp? || step.Rename? {
      HolderWrites(run, default, init, w, step, w');
    } else {
      OnlyTheHolderMoves(run, default, w, step, w');
      hide Next, FileInv, Parse, Commits, LogInv, LockInv, ReadersInv, CommitsRan;
    }
  }

  lemma HolderReads<C(!new), S(!new)>(
    run: (C, S) -> Option<S>, default: S, init: S, w: World<C, S>, step: Step<C>, w': World<C, S>)
    requires Inv(run, default, init, w) && Next(run, default, w, step, w')
    requires step.Acquire? || step.LoadState? || step.RunFunction?
    ensures LogKnown(w') && HolderInv(run, init, w')
  {
    CommandsStay(run, default, w, step, w');
    CommitsStay(run, init, w, w');
    hide Commits, LogInv, ReadersInv, CommitsRan;
    assert w.lock == (if step.Acquire? then None else Some(step.p));
  }

  lemma HolderWrites<C(!new), S(!new)>(
    run: (C, S) -> Option<S>, default: S, init: S, w: World<C, S>, step: Step<C>, w': World<C, S>)
    requires Inv(run, default, init, w) && Next(run, default, w, step, w')
    requires step.OpenTmp? || step.WriteTmp? || step.Rename?
    ensures LogKnown(w') && HolderInv(run, init, w')
  {
    CommandsStay(run, default, w, step, w');
    CommitsStay(run, init, w, w');
    hide Commits, LogInv, FileInv, ReadersInv, CommitsRan, Parse;
    assert w.lock == Some(step.p);
  }

  /** Steps of anyone but the holder leave it, and the file it writes, alone. */
  lemma OnlyTheHolderMoves<C(!new), S(!new)>(
    run: (C, S) -> Option<S>, default: S, w: World<C, S>, step: Step<C>, w': World<C, S>)
    requires LockInv(w) && Next(run, default, w, step, w')
    requires !(step.Acquire? || step.LoadState? || step.RunFunction? || step.OpenTmp? || step.WriteTmp? || step.Rename?)
    ensures w'.inodes == w.inodes && w'.tmp == w.tmp && w'.log == w.log
    ensures w'.lock.Some? ==> w'.lock == w.lock && w'.lock.value in w.processes && w'.lock.value in w'.processes &&
                              w'.processes[w'.lock.value] == w.processes[w.lock.value]
  {
  }

  lemma RenamedRan<C(!new), S(!new)>(
    run: (C, S) -> Option<S>, default: S, init: S, w: World<C, S>, p: nat, w': World<C, S>)
    requires LogKnown(w) && LockInv(w) && HolderInv(run, init, w) && Next(run, default, w, Rename(p), w')
    ensures run(w.processes[p].command, Commits(run, w, init, |w.log|)) == Some(w.processes[p].phase.next)
  {
    hide Commits, Parse;
  }

  lemma StepKeepsCommits<C(!new), S(!new)>(
    run: (C, S) -> Option<S>, default: S, init: S, w: World<C, S>, step: Step<C>, w': World<C, S>)
    requires Inv(run, default, init, w) && Next(run, default, w, step, w')
    ensures LogKnown(w') && CommitsRan(run, init, w')
  {
    CommandsStay(run, default, w, step, w');
    CommitsStay(run, init, w, w');
    hide Parse, LogInv, FileInv, ReadersInv, Commits;
    if step.Rename? {
      RenameCommits(run, default, init, w, step.p, w');
      RenamedRan(run, default, init, w, step.p, w');
    }
    LogGrows(run, default, w, step, w');
    hide Next, LockInv, HolderInv;
    forall k | 0 <= k < |w'.log|
      ensures run(w'.processes[w'.log[k]].command, Commits(run, w', init, k)) == Some(Commits(run, w', init, k + 1))
    {
      if k < |w.log| {
        assert w'.log[k] == w.log[k];
        assert Commits(run, w, init, k) == Commits(run, w', init, k);
      }
    }
  }

  lemma StepKeepsInv<C(!new), S(!new)>(
    run: (C, S) -> Option<S>, default: S, init: S, w: World<C, S>, step: Step<C>, w': World<C, S>)
    requires Inv(run, default, init, w) && Next(run, default, w, step, w')
    ensures Inv(run, default, init, w')
  {
    StepKeepsLog(run, default, w, step, w');
    StepKeepsLock(run, default, w, step, w');
    StepKeepsFile(run, default, init, w, step, w');
    StepKeepsReaders(run, default, init, w, step, w');
    StepKeepsHolder(run, default, init, w, step, w');
    StepKeepsCommits(run, default, init, w, step, w');
    hide *;
  }

  ghost predicate Run<C(!new), S(!new)>(
    run: (C, S) -> Option<S>, default: S, init: S, worlds: seq<World<C, S>>, steps: seq<Step<C>>)
  {
    && |worlds| == |steps| + 1 && Start(default, init, worlds[0])
    && forall i :: 0 <= i < |steps| ==> Next(run, default, worlds[i], steps[i], worlds[i + 1])
  }

  lemma {:induction false} RunKeepsInv<C(!new), S(!new)>(
    run: (C, S) -> Option<S>, default: S, init: S, worlds: seq<World<C, S>>, steps: seq<Step<C>>, n: nat)
    requires Run(run, default, init, worlds, steps) && n <= |steps|
    ensures Inv(run, default, init, worlds[n])
    decreases n
  {
    hide Inv, Next, Start;
    if n == 0 {
      StartsWell(run, default, init, worlds[0]);
    } else {
      RunKeepsInv(run, default, init, worlds, steps, n - 1);
      StepKeepsInv(run, default, init, worlds[n - 1], steps[n - 1], worlds[n]);
    }
  }

  /** `a` with some elements left out of `b`, in the order they have there. */
  ghost predicate Subsequence<T>(a: seq<T>, b: seq<T>)
    decreases |b|
  {
    if b == [] then a == []
    else
      var n := |b| - 1;
      Subsequence(a, b[..n]) || (a != [] && a[|a| - 1] == b[n] && Subsequence(a[..|a| - 1], b[..n]))
  }

  lemma SubsequenceSnoc<T>(a: seq<T>, b: seq<T>, x: T)
    requires Subsequence(a, b)
    ensures Subsequence(a, b + [x]) && Subsequence(a + [x], b + [x])
  {
  }

  /** Commits follow the order of the lock: the holder is the last to have got it, and until it renames
      every commit is an earlier holder's. */
  ghost predicate OrderInv<C, S>(w: World<C, S>) {
    && Subsequence(w.log, w.acquired)
    && (forall p :: p in w.acquired ==> p in w.processes && !w.processes[p].phase.Waiting?)
    && (forall i, j :: 0 <= i < j < |w.acquired| ==> w.acquired[i] != w.acquired[j])
    && (w.lock.Some? && w.lock.value in w.processes && !w.processes[w.lock.value].phase.Renamed? ==>
          var n := |w.acquired| - 1;
          n >= 0 && w.acquired[n] == w.lock.value && Subsequence(w.log, w.acquired[..n]))
  }

  lemma StepKeepsOrder<C(!new), S(!new)>(
    run: (C, S) -> Option<S>, default: S, init: S, w: World<C, S>, step: Step<C>, w': World<C, S>)
    requires Inv(run, default, init, w) && Next(run, default, w, step, w') && OrderInv(w)
    ensures OrderInv(w')
  {
    hide LogInv, LockInv, CommitsRan, FileInv, ReadersInv, HolderInv, Parse, Next, OrderInv;
    if step.Acquire? {
      AcquireKeepsOrder(run, default, w, step.p, w');
    } else if step.Rename? {
      RenameKeepsOrder(run, default, w, step.p, w');
    } else {
      QuietStepKeepsOrder(run, default, w, step, w');
    }
  }

  lemma AcquireKeepsOrder<C(!new), S(!new)>(
    run: (C, S) -> Option<S>, default: S, w: World<C, S>, p: nat, w': World<C, S>)
    requires Next(run, default, w, Acquire(p), w') && OrderInv(w)
    ensures OrderInv(w')
  {
    hide Parse, Subsequence;
    SubsequenceSnoc(w.log, w.acquired, p);
    assert w'.acquired[..|w.acquired|] == w.acquired;
  }

  lemma RenameKeepsOrder<C(!new), S(!new)>(
    run: (C, S) -> Option<S>, default: S, w: World<C, S>, p: nat, w': World<C, S>)
    requires LockInv(w) && Next(run, default, w, Rename(p), w') && OrderInv(w)
    ensures OrderInv(w')
  {
    RenameMoves(run, default, w, p, w');
    hide Next, Subsequence, LockInv;
    var n := |w.acquired| - 1;
    assert w.acquired == w.acquired[..n] + [p];
    SubsequenceSnoc(w.log, w.acquired[..n], p);
  }

  lemma RenameMoves<C(!new), S(!new)>(
    run: (C, S) -> Option<S>, default: S, w: World<C, S>, p: nat, w': World<C, S>)
    requires LockInv(w) && Next(run, default, w, Rename(p), w')
    ensures w.lock == Some(p) == w'.lock && p in w.processes && !w.processes[p].phase.Renamed?
    ensures w'.acquired == w.acquired && w'.log == w.log + [p]
    ensures w'.processes == w.processes[p := w.processes[p].(phase := Renamed)]
  {
  }

  lemma QuietStepKeepsOrder<C(!new), S(!new)>(
    run: (C, S) -> Option<S>, default: S, w: World<C, S>, step: Step<C>, w': World<C, S>)
    requires LockInv(w) && Next(run, default, w, step, w') && !step.Acquire? && !step.Rename? && OrderInv(w)
    ensures OrderInv(w')
  {
    QuietStep(run, default, w, step, w');
    hide Next, Subsequence, LockInv;
  }

  lemma QuietStep<C(!new), S(!new)>(
    run: (C, S) -> Option<S>, default: S, w: World<C, S>, step: Step<C>, w': World<C, S>)
    requires LockInv(w) && Next(run, default, w, step, w') && !step.Acquire? && !step.Rename?
    ensures w'.acquired == w.acquired && w'.log == w.log && w'.lock in {None, w.lock}
    ensures forall p :: p in w.processes ==> p in w'.processes
    ensures forall p :: p in w.processes && w'.processes[p].phase.Waiting? ==> w.processes[p].phase.Waiting?
    ensures forall p :: p in w'.processes && w'.lock == Some(p) && !w'.processes[p].phase.Renamed? ==>
              p in w.processes && !w.processes[p].phase.Renamed?
  {
    hide Parse;
    QuietLists(run, default, w, step, w');
    forall p | p in w.processes
      ensures p in w'.processes && (w'.processes[p].phase.Waiting? ==> w.processes[p].phase.Waiting?)
      ensures w'.lock == Some(p) && !w'.processes[p].phase.Renamed? ==> !w.processes[p].phase.Renamed?
    {
      QuietProcess(run, default, w, step, w', p);
    }
    hide Next;
  }

  lemma QuietLists<C(!new), S(!new)>(
    run: (C, S) -> Option<S>, default: S, w: World<C, S>, step: Step<C>, w': World<C, S>)
    requires Next(run, default, w, step, w') && !step.Acquire? && !step.Rename?
    ensures w'.acquired == w.acquired && w'.log == w.log && w'.lock in {None, w.lock}
  {
    hide Parse;
  }

  lemma QuietProcess<C(!new), S(!new)>(
    run: (C, S) -> Option<S>, default: S, w: World<C, S>, step: Step<C>, w': World<C, S>, p: nat)
    requires Next(run, default, w, step, w') && !step.Acquire? && !step.Rename? && p in w.processes
    ensures p in w'.processes && (w'.processes[p].phase.Waiting? ==> w.processes[p].phase.Waiting?)
    ensures w'.lock == Some(p) && !w'.processes[p].phase.Renamed? ==> !w.processes[p].phase.Renamed?
  {
    hide Parse;
  }

  lemma {:induction false} RunKeepsOrder<C(!new), S(!new)>(
    run: (C, S) -> Option<S>, default: S, init: S, worlds: seq<World<C, S>>, steps: seq<Step<C>>, n: nat)
    requires Run(run, default, init, worlds, steps) && n <= |steps|
    ensures OrderInv(worlds[n])
    decreases n
  {
    if n > 0 {
      hide Inv, Next, Start, OrderInv;
      RunKeepsOrder(run, default, init, worlds, steps, n - 1);
      RunKeepsInv(run, default, init, worlds, steps, n - 1);
      StepKeepsOrder(run, default, init, worlds[n - 1], steps[n - 1], worlds[n]);
    }
  }

  /** Whatever the interleaving, the failures and the crashes: state.json is the serial execution of
      the committed commands in lock order, each of which succeeded at its turn; a lock-free `Load`
      returns the state committed when it opened the file; a process that reported success committed
      exactly once, one that reported failure never. */
  lemma EveryRunIsSerial<C(!new), S(!new)>(
    run: (C, S) -> Option<S>, default: S, init: S, worlds: seq<World<C, S>>, steps: seq<Step<C>>, n: nat)
    requires Run(run, default, init, worlds, steps) && n <= |steps|
    ensures var w := worlds[n];
            && LogKnown(w)
            && Parse(w.inodes, w.file, default) == Some(Serial(run, w.processes, init, w.log))
            && (forall k {:trigger w.log[k]} :: 0 <= k < |w.log| ==>
                  run(w.processes[w.log[k]].command, Serial(run, w.processes, init, w.log[..k])).Some?)
            && (forall r :: r in w.readers && w.readers[r].Done? ==>
                  && w.readers[r].since <= |w.log|
                  && w.readers[r].result == Some(Serial(run, w.processes, init, w.log[..w.readers[r].since])))
            && Subsequence(w.log, w.acquired)
            && (forall i, j :: 0 <= i < j < |w.acquired| ==> w.acquired[i] != w.acquired[j])
            && (forall i, j :: 0 <= i < j < |w.log| ==> w.log[i] != w.log[j])
            && (forall p :: p in w.processes && w.processes[p].phase == Returned(true) ==> p in w.log)
            && (forall p :: p in w.processes && w.processes[p].phase == Returned(false) ==> p !in w.log)
  {
    var w := worlds[n];
    RunKeepsInv(run, default, init, worlds, steps, n);
    RunKeepsOrder(run, default, init, worlds, steps, n);
    hide Serial, LockInv, HolderInv, Run;
    assert w.log[..|w.log|] == w.log;
    forall k | 0 <= k < |w.log|
      ensures run(w.processes[w.log[k]].command, Serial(run, w.processes, init, w.log[..k])).Some?
    {
      assert Commits(run, w, init, k) == Serial(run, w.processes, init, w.log[..k]);
    }
  }

  /** At most one process is between its lock and its release. */
  lemma MutualExclusion<C(!new), S(!new)>(
    run: (C, S) -> Option<S>, default: S, init: S, worlds: seq<World<C, S>>, steps: seq<Step<C>>,
    n: nat, p: nat, q: nat)
    requires Run(run, default, init, worlds, steps) && n <= |steps|
    requires p in worlds[n].processes && InCritical(worlds[n].processes[p].phase)
    requires q in worlds[n].processes && InCritical(worlds[n].processes[q].phase)
    ensures p == q
  {
    RunKeepsInv(run, default, init, worlds, steps, n);
    hide Run, LogInv, CommitsRan, FileInv, ReadersInv, HolderInv;
  }

  ghost predicate Preserves<C, S(!new)>(run: (C, S) -> Option<S>, good: S -> bool, c: C) {
    forall s {:trigger run(c, s)} :: good(s) && run(c, s).Some? ==> good(run(c, s).value)
  }

  /** What a command preserves holds of every state anyone can ever load. */
  lemma {:induction false} SerialKeeps<C, S(!new)>(
    run: (C, S) -> Option<S>, good: S -> bool, commands: map<nat, Process<C, S>>, init: S, log: seq<nat>)
    requires forall p :: p in log ==> p in commands
    requires good(init)
    requires forall p :: p in log ==> Preserves(run, good, commands[p].command)
    ensures good(Serial(run, commands, init, log))
    decreases |log|
  {
    if log != [] {
      SerialKeeps(run, good, commands, init, log[..|log| - 1]);
      assert Preserves(run, good, commands[log[|log| - 1]].command);
    }
  }
}
