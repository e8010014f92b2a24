/** The kernel beside the locked store: commands update it inside the lock and before the file is
    saved, `sync` replaces it without taking the lock, and processes fail or crash anywhere. */
module KernelRuns {
  import opened Prelude
  import opened PeerStore
  import opened Kernel
  import opened Transactions
  import L = LockedStore
  import LockProgress

  ghost function Runner(codec: Codec): (Command, State) -> Option<State> {
    (c, s) => Exec(Parses(codec), c, s)
  }

  datatype HostWorld = HostWorld(world: L.World<Command, State>, kernel: Peers)

  /** A step of the protocol, or a `sync` that installs what the `Load` of reader `r` returned; and whether
      the kernel call it makes, if it makes one, works. */
  datatype HostStep = InStore(step: L.Step<Command>, works: bool) | SyncKernel(r: nat, works: bool)

  ghost predicate HostNext(codec: Codec, default: State, h: HostWorld, step: HostStep, h': HostWorld) {
    match step
    case InStore(step, works) =>
      && L.Next(Runner(codec), default, h.world, step, h'.world)
      && h'.kernel ==
         if step.RunFunction? && works then
           var p := h.world.processes[step.p];
           KernelAfter(codec, p.command, p.phase.s, h.kernel)
         else h.kernel
    case SyncKernel(r, works) =>
      && r in h.world.readers && h.world.readers[r].Done? && h.world.readers[r].result.Some?
      && h'.world == h.world
      && var flat := FlatPeers(h.world.readers[r].result.value);
         h'.kernel == if works && AllDecode(codec, flat) then Synced(codec, flat) else h.kernel
  }

  /** Whatever step the store's protocol can take, the host can, and a sync can come whenever a load has returned a
      state; whether the kernel call works is open in both. */
  lemma EveryStepIsTaken(
    codec: Codec, default: State, h: HostWorld, step: L.Step<Command>, w': L.World<Command, State>, r: nat, works: bool)
    ensures L.Next(Runner(codec), default, h.world, step, w') ==>
              exists kernel :: HostNext(codec, default, h, InStore(step, works), HostWorld(w', kernel))
    ensures r in h.world.readers && h.world.readers[r].Done? && h.world.readers[r].result.Some? ==>
              exists kernel :: HostNext(codec, default, h, SyncKernel(r, works), HostWorld(h.world, kernel))
  {
    if L.Next(Runner(codec), default, h.world, step, w') {
      hide L.Next;
      var p := if step.RunFunction? then step.p else 0;
      var kernel := if step.RunFunction? && works then
                      KernelAfter(codec, h.world.processes[p].command, h.world.processes[p].phase.s, h.kernel)
                    else h.kernel;
      assert HostNext(codec, default, h, InStore(step, works), HostWorld(w', kernel));
    }
    if r in h.world.readers && h.world.readers[r].Done? && h.world.readers[r].result.Some? {
      var flat := FlatPeers(h.world.readers[r].result.value);
      var kernel := if works && AllDecode(codec, flat) then Synced(codec, flat) else h.kernel;
      assert HostNext(codec, default, h, SyncKernel(r, works), HostWorld(h.world, kernel));
    }
  }

  /** All peers that ever matter, decoding, and to different values where their texts differ. */
  ghost predicate Decodable(codec: Codec, ps: set<Peer>) {
    DecodesApart(codec, ps) && forall p :: p in ps ==> ConfigOf(codec, p).Some?
  }

  ghost predicate Usable(ps: set<Peer>, s: State) {
    Unique(s) && Elems(FlatPeers(s)) <= ps
  }

  ghost predicate Within(ps: set<Peer>, c: Command) {
    c.Add? ==> c.peer in ps
  }

  ghost predicate HostInv(codec: Codec, ps: set<Peer>, default: State, init: State, w: L.World<Command, State>) {
    && L.Inv(Runner(codec), default, init, w) && Usable(ps, init)
    && forall p {:trigger w.processes[p]} :: p in w.processes ==> Within(ps, w.processes[p].command)
  }

  lemma UsableDecodes(codec: Codec, ps: set<Peer>, s: State)
    requires Decodable(codec, ps) && Usable(ps, s)
    ensures AllDecode(codec, FlatPeers(s))
  {
  }

  /** A command that succeeds takes the kernel from one store's peers to the other's, and they differ. */
  lemma CommandMovesTheKernel(codec: Codec, ps: set<Peer>, c: Command, s: State)
    requires Decodable(codec, ps) && Usable(ps, s) && Within(ps, c) && Exec(Parses(codec), c, s).Some?
    ensures var next := Exec(Parses(codec), c, s).value;
            && Usable(ps, next) && AllDecode(codec, FlatPeers(s)) && AllDecode(codec, FlatPeers(next))
            && KernelAfter(codec, c, s, Synced(codec, FlatPeers(s))) == Synced(codec, FlatPeers(next))
            && Synced(codec, FlatPeers(next)) != Synced(codec, FlatPeers(s))
  {
    UsableDecodes(codec, ps, s);
    var next := Exec(Parses(codec), c, s).value;
    var h := Host(s, Synced(codec, FlatPeers(s)));
    var h' := Host(next, KernelAfter(codec, c, s, h.kernel));
    match c
    case Add(role, p) =>
      AddStaysInStep(codec, h, role, p, h', ps);
      NewKey(codec, ps, s, p);
    case Remove(role, name) =>
      RemovedDecodes(codec, ps, s, role, name);
      RemoveStaysInStep(codec, h, role, name, h', ps);
  }

  lemma NewKey(codec: Codec, ps: set<Peer>, s: State, p: Peer)
    requires Decodable(codec, ps) && Usable(ps, s) && p in ps && AllDecode(codec, FlatPeers(s))
    requires !HasKey(FlatPeers(s), p.publicKey)
    ensures codec.key(p.publicKey).Some? && codec.key(p.publicKey).value !in Synced(codec, FlatPeers(s))
  {
    assert ConfigOf(codec, p).Some?;
    var flat, key := FlatPeers(s), codec.key(p.publicKey).value;
    SyncedKeys(codec, flat, key);
    forall i | 0 <= i < |flat|
      ensures codec.key(flat[i].publicKey) != Some(key)
    {
      assert flat[i] in Elems(flat);
    }
  }

  lemma RemovedDecodes(codec: Codec, ps: set<Peer>, s: State, role: Role, name: string)
    requires Decodable(codec, ps) && Usable(ps, s) && Removed(s, role, name).Ok? && AllDecode(codec, FlatPeers(s))
    ensures var key := codec.key(Removed(s, role, name).value.1);
            key.Some? && key.value in Synced(codec, FlatPeers(s))
  {
    RemoveDeletesOne(s, role, name);
    var flat, i := FlatPeers(s), RemovedAt(s, role, name);
    assert ConfigOf(codec, flat[i]).Some?;
    SyncedKeys(codec, flat, codec.key(flat[i].publicKey).value);
  }

  lemma CommitIsUsable(codec: Codec, ps: set<Peer>, default: State, init: State, w: L.World<Command, State>, n: nat)
    requires Decodable(codec, ps) && HostInv(codec, ps, default, init, w) && n <= |w.log|
    ensures Usable(ps, L.Commits(Runner(codec), w, init, n))
  {
    var good: State -> bool := s => Usable(ps, s);
    forall p | p in w.log[..n]
      ensures L.Preserves(Runner(codec), good, w.processes[p].command)
    {
      var c := w.processes[p].command;
      forall s | good(s) && Runner(codec)(c, s).Some?
        ensures good(Runner(codec)(c, s).value)
      {
        CommandMovesTheKernel(codec, ps, c, s);
      }
    }
    L.SerialKeeps(Runner(codec), good, w.processes, init, w.log[..n]);
  }

  /** The holder of the lock has updated the kernel and not yet the file. */
  ghost predicate PastUpdate(w: L.World<Command, State>) {
    && w.lock.Some? && w.lock.value in w.processes
    && var phase := w.processes[w.lock.value].phase; phase.Ran? || phase.Writing? || phase.Written?
  }

  /** The store the kernel should show: the holder's, once it has updated the kernel, or the file's. */
  ghost function Target(codec: Codec, init: State, w: L.World<Command, State>): State
    requires L.LogKnown(w)
  {
    if PastUpdate(w) then w.processes[w.lock.value].phase.next
    else L.Commits(Runner(codec), w, init, |w.log|)
  }

  ghost predicate Tracks(codec: Codec, init: State, h: HostWorld) {
    && L.LogKnown(h.world)
    && AllDecode(codec, FlatPeers(Target(codec, init, h.world)))
    && h.kernel == Synced(codec, FlatPeers(Target(codec, init, h.world)))
  }

  /** A process gives up, or crashes, between its kernel update and its rename. */
  ghost predicate Aborts(w: L.World<Command, State>, step: L.Step<Command>) {
    (step.Fail? || step.Crash?) && step.p in w.processes &&
    var phase := w.processes[step.p].phase; phase.Ran? || phase.Writing? || phase.Written?
  }

  lemma StepKeepsHostInv(
    codec: Codec, ps: set<Peer>, default: State, init: State,
    w: L.World<Command, State>, step: L.Step<Command>, w': L.World<Command, State>)
    requires HostInv(codec, ps, default, init, w) && L.Next(Runner(codec), default, w, step, w')
    requires step.Spawn? ==> Within(ps, step.c)
    ensures HostInv(codec, ps, default, init, w') && w.log <= w'.log
    ensures forall n :: 0 <= n <= |w.log| ==>
              L.Commits(Runner(codec), w', init, n) == L.Commits(Runner(codec), w, init, n)
  {
    L.StepKeepsInv(Runner(codec), default, init, w, step, w');
    L.CommandsStay(Runner(codec), default, w, step, w');
    L.CommitsStay(Runner(codec), init, w, w');
    hide L.Inv, L.Commits, L.Next, Within;
    forall p {:trigger w'.processes[p]} | p in w'.processes
      ensures Within(ps, w'.processes[p].command)
    {
      if p !in w.processes { SpawnsProcess(codec, default, w, step, w', p); }
    }
  }

  lemma SpawnsProcess(
    codec: Codec, default: State,
    w: L.World<Command, State>, step: L.Step<Command>, w': L.World<Command, State>, p: nat)
    requires L.Next(Runner(codec), default, w, step, w') && p in w'.processes && p !in w.processes
    ensures step.Spawn? && w'.processes[p].command == step.c
  {
    hide L.Parse;
  }

  /** The holder's next state is its command's outcome on the committed state. */
  lemma PastUpdateMeans(codec: Codec, default: State, init: State, w: L.World<Command, State>)
    requires L.Inv(Runner(codec), default, init, w) && PastUpdate(w)
    ensures Exec(Parses(codec), w.processes[w.lock.value].command, L.Commits(Runner(codec), w, init, |w.log|)) ==
            Some(Target(codec, init, w))
  {
  }

  lemma AbortLosesTheUpdate(
    codec: Codec, default: State, init: State,
    w: L.World<Command, State>, step: L.Step<Command>, w': L.World<Command, State>)
    requires L.Inv(Runner(codec), default, init, w) && L.Next(Runner(codec), default, w, step, w') && Aborts(w, step)
    ensures PastUpdate(w) && w.lock == Some(step.p) && w'.lock == None && w'.log == w.log && !PastUpdate(w')
  {
  }

  lemma UpdateSetsTheTarget(
    codec: Codec, default: State, init: State,
    w: L.World<Command, State>, p: nat, w': L.World<Command, State>)
    requires L.Inv(Runner(codec), default, init, w) && L.Next(Runner(codec), default, w, L.RunFunction(p), w')
    ensures !PastUpdate(w) && w'.log == w.log && w.processes[p].phase.s == L.Commits(Runner(codec), w, init, |w.log|)
    ensures match Exec(Parses(codec), w.processes[p].command, w.processes[p].phase.s)
            case Some(next) => PastUpdate(w') && w'.processes[w'.lock.value].phase.next == next
            case None => !PastUpdate(w')
  {
  }

  lemma RenameKeepsTheTarget(
    codec: Codec, default: State, init: State,
    w: L.World<Command, State>, p: nat, w': L.World<Command, State>)
    requires L.Inv(Runner(codec), default, init, w) && L.Next(Runner(codec), default, w, L.Rename(p), w')
    ensures L.LogKnown(w') && PastUpdate(w) && !PastUpdate(w')
    ensures L.Commits(Runner(codec), w', init, |w'.log|) == w.processes[w.lock.value].phase.next
  {
    L.RenameCommits(Runner(codec), default, init, w, p, w');
    hide L.LogInv, L.CommitsRan, L.FileInv, L.ReadersInv, L.HolderInv, L.Commits;
  }

  /** Every other step leaves alone what the kernel should show. */
  lemma OtherStepsKeepTheTarget(
    codec: Codec, default: State, init: State,
    w: L.World<Command, State>, step: L.Step<Command>, w': L.World<Command, State>)
    requires L.Inv(Runner(codec), default, init, w) && L.Next(Runner(codec), default, w, step, w')
    requires !step.RunFunction? && !step.Rename? && !Aborts(w, step)
    ensures w'.log == w.log && (PastUpdate(w') <==> PastUpdate(w))
    ensures PastUpdate(w) ==> w'.processes[w'.lock.value].phase.next == w.processes[w.lock.value].phase.next
  {
    hide L.LogInv, L.CommitsRan, L.FileInv, L.ReadersInv, L.HolderInv, L.Parse;
  }

  /** A `sync` whose `Load` opened the file after the last commit, installing what it read while no
      process is between its kernel update and its rename. */
  ghost predicate Timely(h: HostWorld, step: HostStep) {
    step.SyncKernel? && step.r in h.world.readers ==>
      h.world.readers[step.r].since == |h.world.log| && !PastUpdate(h.world)
  }

  ghost predicate StepWithin(ps: set<Peer>, step: HostStep) {
    step.InStore? && step.step.Spawn? ==> Within(ps, step.step.c)
  }

  lemma TargetIsUsable(codec: Codec, ps: set<Peer>, default: State, init: State, w: L.World<Command, State>)
    requires Decodable(codec, ps) && HostInv(codec, ps, default, init, w)
    ensures Usable(ps, Target(codec, init, w)) && AllDecode(codec, FlatPeers(Target(codec, init, w)))
  {
    CommitIsUsable(codec, ps, default, init, w, |w.log|);
    if PastUpdate(w) {
      PastUpdateMeans(codec, default, init, w);
      CommandMovesTheKernel(codec, ps, w.processes[w.lock.value].command, L.Commits(Runner(codec), w, init, |w.log|));
    }
    UsableDecodes(codec, ps, Target(codec, init, w));
  }

  /** The entries a full sync of the peers would send. */
  ghost function Entries(codec: Codec, flat: seq<Peer>): set<Option<PeerConfig>> {
    set p | p in flat :: ConfigOf(codec, p)
  }

  /** The entry a kernel peer stands for. */
  ghost function EntryOf(key: Key, peer: KernelPeer): PeerConfig {
    Update(key, peer.allowed, peer.endpoint, peer.keepalive)
  }

  lemma PeerIsEntry(codec: Codec, ps: set<Peer>, s: State, i: nat)
    requires Decodable(codec, ps) && Usable(ps, s) && i < |FlatPeers(s)| && AllDecode(codec, FlatPeers(s))
    ensures var flat := FlatPeers(s); var key := codec.key(flat[i].publicKey);
            && key.Some? && key.value in Synced(codec, flat)
            && ConfigOf(codec, flat[i]) == Some(EntryOf(key.value, Synced(codec, flat)[key.value]))
  {
    var flat := FlatPeers(s);
    assert flat == flat[..i] + [flat[i]] + flat[i + 1..];
    OthersDecodeApart(codec, flat, i, ps);
    assert ConfigOf(codec, flat[i]).Some?;
    hide Decodable, Usable, SharesKey, SharesIP, Synced, FlatPeers;
    SyncInstalls(codec, flat[..i], flat[i], flat[i + 1..]);
  }

  lemma EqualKernelsEqualEntries(codec: Codec, ps: set<Peer>, s: State, t: State)
    requires Decodable(codec, ps) && Usable(ps, s) && Usable(ps, t)
    requires AllDecode(codec, FlatPeers(s)) && AllDecode(codec, FlatPeers(t))
    requires Synced(codec, FlatPeers(s)) == Synced(codec, FlatPeers(t))
    ensures Entries(codec, FlatPeers(s)) <= Entries(codec, FlatPeers(t))
  {
    hide Decodable, Usable, Synced, ConfigOf, FlatPeers;
    forall p | p in FlatPeers(s)
      ensures ConfigOf(codec, p) in Entries(codec, FlatPeers(t))
    {
      var i :| 0 <= i < |FlatPeers(s)| && FlatPeers(s)[i] == p;
      PeerIsEntry(codec, ps, s, i);
      SyncedKeys(codec, FlatPeers(t), codec.key(p.publicKey).value);
      var j :| 0 <= j < |FlatPeers(t)| && codec.key(FlatPeers(t)[j].publicKey) == codec.key(p.publicKey);
      PeerIsEntry(codec, ps, t, j);
    }
  }

  lemma EqualEntriesEqualKernels(codec: Codec, ps: set<Peer>, s: State, t: State, k: Key)
    requires Decodable(codec, ps) && Usable(ps, s) && Usable(ps, t)
    requires AllDecode(codec, FlatPeers(s)) && AllDecode(codec, FlatPeers(t))
    requires Entries(codec, FlatPeers(s)) <= Entries(codec, FlatPeers(t)) && k in Synced(codec, FlatPeers(s))
    ensures k in Synced(codec, FlatPeers(t))
    ensures Synced(codec, FlatPeers(t))[k] == Synced(codec, FlatPeers(s))[k]
  {
    hide Decodable, Usable, Synced, ConfigOf, FlatPeers;
    var a, b := FlatPeers(s), FlatPeers(t);
    SyncedKeys(codec, a, k);
    var i :| 0 <= i < |a| && codec.key(a[i].publicKey) == Some(k);
    PeerIsEntry(codec, ps, s, i);
    assert a[i] in a && ConfigOf(codec, a[i]) in Entries(codec, b);
    var q :| q in b && ConfigOf(codec, q) == ConfigOf(codec, a[i]);
    var j :| 0 <= j < |b| && b[j] == q;
    PeerIsEntry(codec, ps, t, j);
  }

  /** What a sync installs tells the entries it sent: two stores give the same kernel exactly when they
      give the same entries. */
  lemma SyncedTellsTheEntries(codec: Codec, ps: set<Peer>, s: State, t: State)
    requires Decodable(codec, ps) && Usable(ps, s) && Usable(ps, t)
    ensures AllDecode(codec, FlatPeers(s)) && AllDecode(codec, FlatPeers(t))
    ensures Synced(codec, FlatPeers(s)) == Synced(codec, FlatPeers(t)) <==>
            Entries(codec, FlatPeers(s)) == Entries(codec, FlatPeers(t))
  {
    UsableDecodes(codec, ps, s);
    UsableDecodes(codec, ps, t);
    hide Decodable, Usable, Synced, AllDecode, Entries, FlatPeers;
    if Synced(codec, FlatPeers(s)) == Synced(codec, FlatPeers(t)) {
      EqualKernelsEqualEntries(codec, ps, s, t);
      EqualKernelsEqualEntries(codec, ps, t, s);
    }
    if Entries(codec, FlatPeers(s)) == Entries(codec, FlatPeers(t)) {
      forall k | k in Synced(codec, FlatPeers(s))
        ensures k in Synced(codec, FlatPeers(t)) && Synced(codec, FlatPeers(t))[k] == Synced(codec, FlatPeers(s))[k]
      {
        EqualEntriesEqualKernels(codec, ps, s, t, k);
      }
      forall k | k in Synced(codec, FlatPeers(t))
        ensures k in Synced(codec, FlatPeers(s))
      {
        EqualEntriesEqualKernels(codec, ps, t, s, k);
      }
    }
  }

  /** What a sync read gives the entries the kernel should have, wherever and whenever it was read. */
  ghost predicate ReadsTheTarget(codec: Codec, init: State, h: HostWorld, step: HostStep)
    requires L.LogKnown(h.world)
  {
    step.SyncKernel? && step.works && step.r in h.world.readers && h.world.readers[step.r].Done? &&
    h.world.readers[step.r].result.Some? ==>
      Entries(codec, FlatPeers(h.world.readers[step.r].result.value)) ==
      Entries(codec, FlatPeers(Target(codec, init, h.world)))
  }

  lemma ReadIsACommit(codec: Codec, ps: set<Peer>, default: State, init: State, w: L.World<Command, State>, r: nat)
    requires Decodable(codec, ps) && HostInv(codec, ps, default, init, w)
    requires r in w.readers && w.readers[r].Done?
    ensures w.readers[r].since <= |w.log|
    ensures w.readers[r].result == Some(L.Commits(Runner(codec), w, init, w.readers[r].since))
    ensures Usable(ps, w.readers[r].result.value)
  {
    assert L.ReaderOk(Runner(codec), default, init, w, w.readers[r]);
    CommitIsUsable(codec, ps, default, init, w, w.readers[r].since);
    hide L.Inv, L.Commits, L.LogKnown, Usable;
  }

  /** After any sync that works, whatever the kernel showed before: in step exactly when it read the target's
      entries. */
  lemma SyncTracksExactlyWhen(
    codec: Codec, ps: set<Peer>, default: State, init: State, h: HostWorld, step: HostStep, h': HostWorld)
    requires Decodable(codec, ps) && HostInv(codec, ps, default, init, h.world)
    requires step.SyncKernel? && step.works && HostNext(codec, default, h, step, h')
    ensures Tracks(codec, init, h') <==> ReadsTheTarget(codec, init, h, step)
  {
    TargetIsUsable(codec, ps, default, init, h.world);
    ReadIsACommit(codec, ps, default, init, h.world, step.r);
    hide L.Inv, L.Commits, Usable, Decodable, Synced, Entries, Target, AllDecode;
    SyncedTellsTheEntries(codec, ps, h.world.readers[step.r].result.value, Target(codec, init, h.world));
  }

  /** A timely sync reads the target. */
  lemma TimelyReadsTheTarget(
    codec: Codec, ps: set<Peer>, default: State, init: State, h: HostWorld, step: HostStep)
    requires Decodable(codec, ps) && HostInv(codec, ps, default, init, h.world) && Timely(h, step)
    ensures ReadsTheTarget(codec, init, h, step)
  {
    if step.SyncKernel? && step.r in h.world.readers && h.world.readers[step.r].Done? {
      ReadIsACommit(codec, ps, default, init, h.world, step.r);
    }
    hide L.Inv, L.Commits, Entries;
  }

  /** So it puts the kernel in step, whatever it showed before. */
  lemma SyncRepairs(
    codec: Codec, ps: set<Peer>, default: State, init: State, h: HostWorld, step: HostStep, h': HostWorld)
    requires Decodable(codec, ps) && HostInv(codec, ps, default, init, h.world)
    requires step.SyncKernel? && step.works && HostNext(codec, default, h, step, h') && Timely(h, step)
    ensures Tracks(codec, init, h')
  {
    TimelyReadsTheTarget(codec, ps, default, init, h, step);
    SyncTracksExactlyWhen(codec, ps, default, init, h, step, h');
  }

  lemma LoadOnHost(
    codec: Codec, ps: set<Peer>, default: State, init: State, h: HostWorld, r: nat, works: bool)
    returns (read: HostWorld, loaded: HostWorld)
    requires HostInv(codec, ps, default, init, h.world) && r !in h.world.readers
    ensures HostNext(codec, default, h, InStore(L.OpenFile(r), works), read)
    ensures HostNext(codec, default, read, InStore(L.ReadFile(r), works), loaded)
    ensures HostInv(codec, ps, default, init, loaded.world) && loaded.world.log == h.world.log
    ensures PastUpdate(loaded.world) <==> PastUpdate(h.world)
    ensures var w := loaded.world;
            r in w.readers && w.readers[r].Done? && w.readers[r].result.Some? && w.readers[r].since == |w.log|
  {
    var w1, w2 := LockProgress.LoadIsServed(Runner(codec), default, init, h.world, r);
    read, loaded := HostWorld(w1, h.kernel), HostWorld(w2, h.kernel);
    hide L.Next, HostInv, LockProgress.Committed;
    StepKeepsHostInv(codec, ps, default, init, h.world, L.OpenFile(r), w1);
    StepKeepsHostInv(codec, ps, default, init, w1, L.ReadFile(r), w2);
  }

  /** And one that does can always come while no command is past its kernel update, whatever has been lost. */
  lemma SyncCanRepair(
    codec: Codec, ps: set<Peer>, default: State, init: State, h: HostWorld, r: nat, works: bool)
    returns (read: HostWorld, loaded: HostWorld, synced: HostWorld)
    requires Decodable(codec, ps) && HostInv(codec, ps, default, init, h.world) && !PastUpdate(h.world)
    requires r !in h.world.readers
    ensures HostNext(codec, default, h, InStore(L.OpenFile(r), works), read)
    ensures HostNext(codec, default, read, InStore(L.ReadFile(r), works), loaded)
    ensures HostNext(codec, default, loaded, SyncKernel(r, true), synced) && Tracks(codec, init, synced)
  {
    read, loaded := LoadOnHost(codec, ps, default, init, h, r, works);
    hide L.Next, HostInv, Decodable, PastUpdate, Tracks;
    var flat := FlatPeers(loaded.world.readers[r].result.value);
    synced := HostWorld(loaded.world, if AllDecode(codec, flat) then Synced(codec, flat) else loaded.kernel);
    SyncRepairs(codec, ps, default, init, loaded, SyncKernel(r, true), synced);
  }

  /** One that read the file before the last commit undoes that commit in the kernel. */
  lemma LateSyncUndoesACommit(
    codec: Codec, ps: set<Peer>, default: State, init: State, h: HostWorld, step: HostStep, h': HostWorld)
    requires Decodable(codec, ps) && HostInv(codec, ps, default, init, h.world)
    requires step.SyncKernel? && step.works && HostNext(codec, default, h, step, h') && !PastUpdate(h.world)
    requires h.world.readers[step.r].since == |h.world.log| - 1
    ensures !Tracks(codec, init, h')
  {
    var w, n := h.world, |h.world.log| - 1;
    var run := Runner(codec);
    ReadIsACommit(codec, ps, default, init, w, step.r);
    CommitIsUsable(codec, ps, default, init, w, n);
    assert run(w.processes[w.log[n]].command, L.Commits(run, w, init, n)) == Some(L.Commits(run, w, init, n + 1));
    CommandMovesTheKernel(codec, ps, w.processes[w.log[n]].command, L.Commits(run, w, init, n));
    hide L.Inv, L.Commits, L.LogKnown;
  }

  /** And so does one of the last commit that comes between a command's kernel update and its rename:
      the command goes on to save a store the kernel no longer shows. */
  lemma MidCommandSyncUndoesTheUpdate(
    codec: Codec, ps: set<Peer>, default: State, init: State, h: HostWorld, step: HostStep, h': HostWorld)
    requires Decodable(codec, ps) && HostInv(codec, ps, default, init, h.world)
    requires step.SyncKernel? && step.works && HostNext(codec, default, h, step, h') && PastUpdate(h.world)
    requires h.world.readers[step.r].since == |h.world.log|
    ensures !Tracks(codec, init, h')
  {
    var w := h.world;
    ReadIsACommit(codec, ps, default, init, w, step.r);
    CommitIsUsable(codec, ps, default, init, w, |w.log|);
    PastUpdateMeans(codec, default, init, w);
    CommandMovesTheKernel(codec, ps, w.processes[w.lock.value].command, L.Commits(Runner(codec), w, init, |w.log|));
    hide L.Inv, L.Commits, L.LogKnown;
  }

  /** A command that succeeds, while its kernel update does not: it only warns, and goes on to save. */
  ghost predicate MissesUpdate(codec: Codec, h: HostWorld, step: HostStep) {
    step.InStore? && step.step.RunFunction? && !step.works && step.step.p in h.world.processes &&
    var p := h.world.processes[step.step.p];
    p.phase.Loaded? && Exec(Parses(codec), p.command, p.phase.s).Some?
  }

  /** What leaves a kernel in step: no process aborts, no command misses its update, and what a sync read
      is the target. */
  ghost predicate LeavesInStep(codec: Codec, init: State, h: HostWorld, step: HostStep)
    requires L.LogKnown(h.world)
  {
    !AbortsAt(h, step) && !MissesUpdate(codec, h, step) && ReadsTheTarget(codec, init, h, step)
  }

  ghost predicate AbortsAt(h: HostWorld, step: HostStep) {
    step.InStore? && Aborts(h.world, step.step)
  }

  /** One step of anything: a kernel in step stays so exactly when the step leaves it so. */
  lemma StepTracks(
    codec: Codec, ps: set<Peer>, default: State, init: State, h: HostWorld, step: HostStep, h': HostWorld)
    requires Decodable(codec, ps) && HostInv(codec, ps, default, init, h.world)
    requires HostNext(codec, default, h, step, h') && StepWithin(ps, step)
    requires Tracks(codec, init, h)
    ensures HostInv(codec, ps, default, init, h'.world)
    ensures Tracks(codec, init, h') <==> LeavesInStep(codec, init, h, step)
    ensures AbortsAt(h, step) ==> h'.world.lock == None
  {
    if step.SyncKernel? && !step.works {
      hide L.Inv, L.Commits, L.LogKnown;
    } else if step.SyncKernel? {
      SyncTracksExactlyWhen(codec, ps, default, init, h, step, h');
    } else {
      var w, w', st := h.world, h'.world, step.step;
      StepKeepsHostInv(codec, ps, default, init, w, st, w');
      CommitIsUsable(codec, ps, default, init, w, |w.log|);
      var now := L.Commits(Runner(codec), w, init, |w.log|);
      if Aborts(w, st) {
        AbortLosesTheUpdate(codec, default, init, w, st, w');
        PastUpdateMeans(codec, default, init, w);
        CommandMovesTheKernel(codec, ps, w.processes[st.p].command, now);
      } else if st.RunFunction? {
        UpdateSetsTheTarget(codec, default, init, w, st.p, w');
        if Exec(Parses(codec), w.processes[st.p].command, now).Some? {
          CommandMovesTheKernel(codec, ps, w.processes[st.p].command, now);
        }
      } else if st.Rename? {
        RenameKeepsTheTarget(codec, default, init, w, st.p, w');
      } else {
        OtherStepsKeepTheTarget(codec, default, init, w, st, w');
      }
      hide L.Inv, L.Commits, L.LogKnown, L.Next;
    }
  }

  /** The kernel has what a full sync of state.json would install. */
  ghost predicate Shows(codec: Codec, default: State, h: HostWorld) {
    var s := L.Parse(h.world.inodes, h.world.file, default);
    s.Some? && AllDecode(codec, FlatPeers(s.value)) && h.kernel == Synced(codec, FlatPeers(s.value))
  }

  /** A run on one host, from a synced kernel. */
  ghost predicate HostRun(
    codec: Codec, ps: set<Peer>, default: State, init: State, hosts: seq<HostWorld>, steps: seq<HostStep>)
  {
    && |hosts| == |steps| + 1
    && L.Start(default, init, hosts[0].world) && Usable(ps, init) && Shows(codec, default, hosts[0])
    && forall i :: 0 <= i < |steps| ==>
         HostNext(codec, default, hosts[i], steps[i], hosts[i + 1]) && StepWithin(ps, steps[i])
  }

  ghost predicate NeverAborts(hosts: seq<HostWorld>, steps: seq<HostStep>, n: nat)
    requires n <= |steps| < |hosts|
  {
    forall k :: 0 <= k < n ==> !AbortsAt(hosts[k], steps[k])
  }

  ghost predicate ShowsWheneverFree(codec: Codec, default: State, hosts: seq<HostWorld>, n: nat)
    requires n < |hosts|
  {
    forall k :: 0 <= k <= n && hosts[k].world.lock == None ==> Shows(codec, default, hosts[k])
  }

  lemma FreeAndTracking(codec: Codec, default: State, init: State, h: HostWorld)
    requires L.Inv(Runner(codec), default, init, h.world) && h.world.lock == None
    ensures Tracks(codec, init, h) <==> Shows(codec, default, h)
  {
  }

  lemma {:induction false} HostRunKeepsInv(
    codec: Codec, ps: set<Peer>, default: State, init: State, hosts: seq<HostWorld>, steps: seq<HostStep>, n: nat)
    requires HostRun(codec, ps, default, init, hosts, steps) && n <= |steps|
    ensures HostInv(codec, ps, default, init, hosts[n].world)
    decreases n
  {
    if n == 0 {
      L.StartsWell(Runner(codec), default, init, hosts[0].world);
    } else {
      HostRunKeepsInv(codec, ps, default, init, hosts, steps, n - 1);
      assert HostNext(codec, default, hosts[n - 1], steps[n - 1], hosts[n]) && StepWithin(ps, steps[n - 1]);
      hide HostInv, L.Next, L.Start;
      if steps[n - 1].InStore? {
        StepKeepsHostInv(codec, ps, default, init, hosts[n - 1].world, steps[n - 1].step, hosts[n].world);
      }
    }
  }

  ghost predicate TracksThroughout(codec: Codec, init: State, hosts: seq<HostWorld>, n: nat)
    requires n < |hosts|
  {
    forall k :: 0 <= k <= n ==> Tracks(codec, init, hosts[k])
  }

  /** Every step up to `n` leaves a kernel in step. */
  ghost predicate AllLeaveInStep(codec: Codec, init: State, hosts: seq<HostWorld>, steps: seq<HostStep>, n: nat)
    requires n <= |steps| < |hosts|
  {
    forall k :: 0 <= k < n ==> L.LogKnown(hosts[k].world) && LeavesInStep(codec, init, hosts[k], steps[k])
  }

  /** Over every run, with any syncs whenever they read and install: the kernel is in step with the
      store throughout exactly if no process gives up or crashes between its kernel update and its
      rename, no command misses its update, and every sync that works installs the entries of the store
      the kernel should show when it does. */
  lemma {:induction false} KernelTracksExactlyWhen(
    codec: Codec, ps: set<Peer>, default: State, init: State, hosts: seq<HostWorld>, steps: seq<HostStep>, n: nat)
    requires Decodable(codec, ps) && HostRun(codec, ps, default, init, hosts, steps) && n <= |steps|
    ensures TracksThroughout(codec, init, hosts, n) <==> AllLeaveInStep(codec, init, hosts, steps, n)
    decreases n
  {
    hide HostInv, Tracks, LeavesInStep, StepWithin, HostNext, Shows, L.Inv, L.LogKnown;
    if n == 0 {
      HostRunKeepsInv(codec, ps, default, init, hosts, steps, 0);
      InvOf(codec, ps, default, init, hosts[0].world);
      FreeAndTracking(codec, default, init, hosts[0]);
    } else {
      hide L.Start;
      KernelTracksExactlyWhen(codec, ps, default, init, hosts, steps, n - 1);
      HostRunKeepsInv(codec, ps, default, init, hosts, steps, n - 1);
      InvOf(codec, ps, default, init, hosts[n - 1].world);
      if TracksThroughout(codec, init, hosts, n - 1) {
        StepTracks(codec, ps, default, init, hosts[n - 1], steps[n - 1], hosts[n]);
      }
    }
  }

  /** Every sync up to `n` installs the entries of the target. */
  ghost predicate SyncsReadTheTarget(codec: Codec, init: State, hosts: seq<HostWorld>, steps: seq<HostStep>, n: nat)
    requires n <= |steps| < |hosts|
  {
    forall k :: 0 <= k < n ==> L.LogKnown(hosts[k].world) && ReadsTheTarget(codec, init, hosts[k], steps[k])
  }

  ghost predicate NoUpdateMissed(codec: Codec, hosts: seq<HostWorld>, steps: seq<HostStep>, n: nat)
    requires n <= |steps| < |hosts|
  {
    forall k :: 0 <= k < n ==> !MissesUpdate(codec, hosts[k], steps[k])
  }

  /** Where no update is missed and syncs do no harm, as timely ones never do, the moments at which the
      lock is free tell it all: the kernel has what state.json calls for at each of them exactly if no
      process gives up or crashes between its kernel update and its rename. */
  lemma {:induction false} KernelShowsTheFileExactlyWhen(
    codec: Codec, ps: set<Peer>, default: State, init: State, hosts: seq<HostWorld>, steps: seq<HostStep>, n: nat)
    requires Decodable(codec, ps) && HostRun(codec, ps, default, init, hosts, steps) && n <= |steps|
    requires SyncsReadTheTarget(codec, init, hosts, steps, n) && NoUpdateMissed(codec, hosts, steps, n)
    ensures ShowsWheneverFree(codec, default, hosts, n) <==> NeverAborts(hosts, steps, n)
    ensures NeverAborts(hosts, steps, n) ==> Tracks(codec, init, hosts[n])
    decreases n
  {
    HostRunKeepsInv(codec, ps, default, init, hosts, steps, n);
    if n == 0 {
      FreeAndTracking(codec, default, init, hosts[0]);
    } else {
      KernelShowsTheFileExactlyWhen(codec, ps, default, init, hosts, steps, n - 1);
      HostRunKeepsInv(codec, ps, default, init, hosts, steps, n - 1);
      hide HostInv, Tracks, Shows, AbortsAt, MissesUpdate, ReadsTheTarget, StepWithin, HostNext, L.Start;
      if NeverAborts(hosts, steps, n - 1) {
        StepTracks(codec, ps, default, init, hosts[n - 1], steps[n - 1], hosts[n]);
      }
      if hosts[n].world.lock == None {
        InvOf(codec, ps, default, init, hosts[n].world);
        FreeAndTracking(codec, default, init, hosts[n]);
      }
    }
  }

  lemma InvOf(codec: Codec, ps: set<Peer>, default: State, init: State, w: L.World<Command, State>)
    requires HostInv(codec, ps, default, init, w)
    ensures L.Inv(Runner(codec), default, init, w) && L.LogKnown(w)
  {
  }
}
