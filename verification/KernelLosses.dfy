/** The four ways a kernel falls out of step, as runs: from an empty store, for any peer that decodes.

    A `sync` reads state.json before anything happens, and `peer add` runs. The kernel loses the peer
    to a late sync or to one in the middle of the command, is left with it when the command aborts, or
    never gets it because the kernel call does not work. */
module KernelLosses {
  import opened Prelude
  import opened PeerStore
  import opened Kernel
  import opened Transactions
  import opened KernelRuns
  import L = LockedStore

  ghost function Empty(node: Node): State {
    State(node, [], [])
  }

  ghost function WithPeer(node: Node, p: Peer): State {
    State(node, [p], [])
  }

  type World = L.World<Command, State>

  /** Where the one process is while it holds the lock, and what it has done to the file system. */
  ghost function Held(
    node: Node, p: Peer, phase: L.Phase<State>, tmp: Option<nat>, inodes: map<nat, L.Content<State>>): World
  {
    L.World(map[0 := L.Process(Add(Root, p), phase)], map[0 := L.Done(Some(Empty(node)), 0)],
            Some(0), None, tmp, inodes, [0], [])
  }

  /** The worlds the two go through: the load, and then the command. */
  ghost function Moment(node: Node, p: Peer, i: nat): World {
    var read := map[0 := L.Done(Some(Empty(node)), 0)];
    var one := WithPeer(node, p);
    if i == 0 then L.World(map[], map[], None, None, None, map[], [], [])
    else if i == 1 then L.World(map[], map[0 := L.Opened(None, 0)], None, None, None, map[], [], [])
    else if i == 2 then L.World(map[], read, None, None, None, map[], [], [])
    else if i == 3 then L.World(map[0 := L.Process(Add(Root, p), L.Waiting)], read, None, None, None, map[], [], [])
    else if i == 4 then Held(node, p, L.Holding, None, map[])
    else if i == 5 then Held(node, p, L.Loaded(Empty(node)), None, map[])
    else if i == 6 then Held(node, p, L.Ran(one), None, map[])
    else if i == 7 then Held(node, p, L.Writing(one), Some(0), map[0 := L.Torn])
    else if i == 8 then Held(node, p, L.Written(one), Some(0), map[0 := L.Whole(one)])
    else
      L.World(map[0 := L.Process(Add(Root, p), if i == 9 then L.Renamed else L.Returned(true))], read,
              if i == 9 then Some(0) else None, Some(0), None, map[0 := L.Whole(one)], [0], [0])
  }

  ghost function StepAt(p: Peer, i: nat): L.Step<Command> {
    if i == 0 then L.OpenFile(0)
    else if i == 1 then L.ReadFile(0)
    else if i == 2 then L.Spawn(0, Add(Root, p))
    else if i == 3 then L.Acquire(0)
    else if i == 4 then L.LoadState(0)
    else if i == 5 then L.RunFunction(0)
    else if i == 6 then L.OpenTmp(0, 0)
    else if i == 7 then L.WriteTmp(0)
    else if i == 8 then L.Rename(0)
    else L.Release(0)
  }

  lemma AddToEmpty(codec: Codec, node: Node, p: Peer)
    requires ConfigOf(codec, p).Some?
    ensures Exec(Parses(codec), Add(Root, p), Empty(node)) == Some(WithPeer(node, p)) && Unique(Empty(node))
  {
    TakesRoot(codec, Empty(node), p);
    assert [] + [p] == [p];
  }

  lemma KernelOfOne(codec: Codec, node: Node, p: Peer)
    requires ConfigOf(codec, p).Some?
    ensures AllDecode(codec, FlatPeers(WithPeer(node, p))) && AllDecode(codec, FlatPeers(Empty(node)))
    ensures Synced(codec, FlatPeers(Empty(node))) == map[]
    ensures Synced(codec, FlatPeers(WithPeer(node, p))) ==
            KernelAfter(codec, Add(Root, p), Empty(node), map[]) != map[]
  {
    AddToEmpty(codec, node, p);
    assert [] + [p] == [p] && FlatPeers(Empty(node)) == [] && FlatPeers(WithPeer(node, p)) == [p];
    SyncedSnoc(codec, [], p);
    hide Added, Unique;
    assert codec.key(p.publicKey).value in Apply(map[], ConfigOf(codec, p).value);
  }

  lemma LoadSteps(codec: Codec, node: Node, p: Peer, i: nat)
    requires i < 3
    ensures L.Next(Runner(codec), Empty(node), Moment(node, p, i), StepAt(p, i), Moment(node, p, i + 1))
  {
  }

  lemma LockSteps(codec: Codec, node: Node, p: Peer, i: nat)
    requires 3 <= i < 6 && ConfigOf(codec, p).Some?
    ensures L.Next(Runner(codec), Empty(node), Moment(node, p, i), StepAt(p, i), Moment(node, p, i + 1))
  {
    AddToEmpty(codec, node, p);
    hide Exec;
  }

  lemma SaveSteps(codec: Codec, node: Node, p: Peer, i: nat)
    requires 6 <= i < 10
    ensures L.Next(Runner(codec), Empty(node), Moment(node, p, i), StepAt(p, i), Moment(node, p, i + 1))
  {
  }

  /** The kernel before and after the update in step 5, when nothing else touches it. */
  ghost function KernelAt(codec: Codec, node: Node, p: Peer, i: nat): Peers {
    if i <= 5 then map[] else KernelAfter(codec, Add(Root, p), Empty(node), map[])
  }

  ghost function HostAt(codec: Codec, node: Node, p: Peer, i: nat): HostWorld {
    HostWorld(Moment(node, p, i), KernelAt(codec, node, p, i))
  }

  lemma MomentMoves(codec: Codec, node: Node, p: Peer, i: nat)
    requires i < 10 && ConfigOf(codec, p).Some?
    ensures L.Next(Runner(codec), Empty(node), Moment(node, p, i), StepAt(p, i), Moment(node, p, i + 1))
    ensures StepAt(p, i).RunFunction? <==> i == 5
  {
    hide L.Next, Moment;
    if i < 3 {
      LoadSteps(codec, node, p, i);
    } else if i < 6 {
      LockSteps(codec, node, p, i);
    } else {
      SaveSteps(codec, node, p, i);
    }
  }

  lemma UpdatesAt5(node: Node, p: Peer)
    ensures var w := Moment(node, p, 5);
            0 in w.processes && w.processes[0].command == Add(Root, p) && w.processes[0].phase == L.Loaded(Empty(node))
  {
  }

  /** A step of the protocol, with the kernel moving as the step says. */
  lemma HostMoves(codec: Codec, node: Node, p: Peer, i: nat)
    requires i < 10 && ConfigOf(codec, p).Some?
    ensures HostNext(codec, Empty(node), HostAt(codec, node, p, i), InStore(StepAt(p, i), true),
                     HostAt(codec, node, p, i + 1))
    ensures StepWithin({p}, InStore(StepAt(p, i), true))
  {
    MomentMoves(codec, node, p, i);
    UpdatesAt5(node, p);
    hide L.Next, Moment, KernelAfter;
  }

  /** A step of the protocol other than the update, over a kernel that shows no one. */
  lemma HostMovesEmpty(codec: Codec, node: Node, p: Peer, i: nat)
    requires 6 <= i < 10 && ConfigOf(codec, p).Some?
    ensures HostNext(codec, Empty(node), HostWorld(Moment(node, p, i), map[]), InStore(StepAt(p, i), true),
                     HostWorld(Moment(node, p, i + 1), map[]))
    ensures StepWithin({p}, InStore(StepAt(p, i), true))
  {
    MomentMoves(codec, node, p, i);
    hide L.Next, Moment, KernelAfter;
  }

  lemma ReadEarly(node: Node, p: Peer, i: nat)
    requires 2 <= i <= 10
    ensures Moment(node, p, i).readers == map[0 := L.Done(Some(Empty(node)), 0)]
  {
  }

  /** The sync installs what was loaded before the command: no one. */
  lemma SyncsNoOne(codec: Codec, node: Node, p: Peer, i: nat)
    requires 2 <= i <= 10 && ConfigOf(codec, p).Some?
    ensures HostNext(codec, Empty(node), HostAt(codec, node, p, i), SyncKernel(0, true),
                     HostWorld(Moment(node, p, i), map[]))
  {
    hide Moment, KernelAt, KernelAfter, Synced, AllDecode, Unique, Exec, ConfigOf, L.Next;
    KernelOfOne(codec, node, p);
    ReadEarly(node, p, i);
  }

  lemma StartsSynced(codec: Codec, node: Node, p: Peer)
    requires ConfigOf(codec, p).Some?
    ensures L.Start(Empty(node), Empty(node), Moment(node, p, 0)) && Usable({p}, Empty(node))
    ensures Shows(codec, Empty(node), HostAt(codec, node, p, 0))
  {
    KernelOfOne(codec, node, p);
  }

  /** In the end: the lock is free, and state.json has the peer. */
  lemma Saved(node: Node, p: Peer)
    ensures var w := Moment(node, p, 10);
            w.lock == None && L.Parse(w.inodes, w.file, Empty(node)) == Some(WithPeer(node, p))
  {
  }

  /** The hosts of the first `n` steps. */
  ghost function HostsTo(codec: Codec, node: Node, p: Peer, n: nat): seq<HostWorld> {
    seq(n + 1, i requires 0 <= i <= n => HostAt(codec, node, p, i))
  }

  ghost function StepsTo(p: Peer, n: nat): seq<HostStep> {
    seq(n, i requires 0 <= i < n => InStore(StepAt(p, i), true))
  }

  lemma RunTo(codec: Codec, node: Node, p: Peer, n: nat)
    requires n <= 10 && ConfigOf(codec, p).Some?
    ensures HostRun(codec, {p}, Empty(node), Empty(node), HostsTo(codec, node, p, n), StepsTo(p, n))
  {
    hide HostNext, Moment, KernelAt, StepAt, StepWithin, L.Start, Shows, Usable;
    StartsSynced(codec, node, p);
    forall i | 0 <= i < n
      ensures HostNext(codec, Empty(node), HostAt(codec, node, p, i), InStore(StepAt(p, i), true),
                     HostAt(codec, node, p, i + 1))
      ensures StepWithin({p}, InStore(StepAt(p, i), true))
    {
      HostMoves(codec, node, p, i);
    }
  }

  lemma RunSnoc(
    codec: Codec, ps: set<Peer>, default: State, init: State,
    hosts: seq<HostWorld>, steps: seq<HostStep>, step: HostStep, h: HostWorld)
    requires HostRun(codec, ps, default, init, hosts, steps)
    requires HostNext(codec, default, hosts[|steps|], step, h) && StepWithin(ps, step)
    ensures HostRun(codec, ps, default, init, hosts + [h], steps + [step])
    ensures NeverAborts(hosts, steps, |steps|) && !AbortsAt(hosts[|steps|], step) ==>
              NeverAborts(hosts + [h], steps + [step], |steps| + 1)
  {
    hide HostNext, StepWithin, L.Start, Shows, Usable, AbortsAt;
  }

  lemma NoAborts(codec: Codec, node: Node, p: Peer, n: nat)
    ensures NeverAborts(HostsTo(codec, node, p, n), StepsTo(p, n), n)
  {
    hide Moment, KernelAt;
  }

  /** The kernel shows the peer exactly when state.json has it. */
  lemma ShowsAt(codec: Codec, node: Node, p: Peer, h: HostWorld, has: bool)
    requires ConfigOf(codec, p).Some? && h.kernel in {map[], KernelAfter(codec, Add(Root, p), Empty(node), map[])}
    requires L.Parse(h.world.inodes, h.world.file, Empty(node)) == Some(if has then WithPeer(node, p) else Empty(node))
    ensures Shows(codec, Empty(node), h) <==> (h.kernel == map[] <==> !has)
  {
    KernelOfOne(codec, node, p);
    hide KernelAfter, Synced, AllDecode, L.Parse;
  }

  lemma FailsAfterUpdate(codec: Codec, node: Node, p: Peer) returns (h: HostWorld)
    requires ConfigOf(codec, p).Some?
    ensures HostNext(codec, Empty(node), HostAt(codec, node, p, 6), InStore(L.Fail(0), true), h)
    ensures h.world.lock == None && h.kernel == KernelAt(codec, node, p, 6)
    ensures L.Parse(h.world.inodes, h.world.file, Empty(node)) == Some(Empty(node))
  {
    h := HostWorld(L.Left(Moment(node, p, 6), 0, L.Returned(false)), KernelAt(codec, node, p, 6));
    hide KernelAfter;
  }

  /** The command fails to save: the kernel keeps a peer that state.json does not have. */
  lemma AbortRun(codec: Codec, node: Node, p: Peer) returns (hosts: seq<HostWorld>, steps: seq<HostStep>)
    requires ConfigOf(codec, p).Some?
    ensures HostRun(codec, {p}, Empty(node), Empty(node), hosts, steps)
    ensures |steps| == 7 && steps[6] == InStore(L.Fail(0), true) && forall k :: 0 <= k < 7 ==> steps[k].InStore?
    ensures hosts[7].world.lock == None && !Shows(codec, Empty(node), hosts[7])
  {
    hide HostNext, HostRun, StepWithin, Moment, KernelAfter, Shows, L.Parse;
    RunTo(codec, node, p, 6);
    var h := FailsAfterUpdate(codec, node, p);
    assert StepWithin({p}, InStore(L.Fail(0), true)) by { FailsWithin(p); }
    RunSnoc(codec, {p}, Empty(node), Empty(node), HostsTo(codec, node, p, 6), StepsTo(p, 6),
            InStore(L.Fail(0), true), h);
    hosts, steps := HostsTo(codec, node, p, 6) + [h], StepsTo(p, 6) + [InStore(L.Fail(0), true)];
    KernelOfOne(codec, node, p);
    ShowsAt(codec, node, p, h, false);
  }

  lemma FailsWithin(p: Peer)
    ensures StepWithin({p}, InStore(L.Fail(0), true)) && StepWithin({p}, SyncKernel(0, true))
  {
  }

  /** The sync installs what it read before the command ran: the kernel loses the peer it had. */
  lemma LateSyncRun(codec: Codec, node: Node, p: Peer) returns (hosts: seq<HostWorld>, steps: seq<HostStep>)
    requires ConfigOf(codec, p).Some?
    ensures HostRun(codec, {p}, Empty(node), Empty(node), hosts, steps)
    ensures |steps| == 11 && steps[10] == SyncKernel(0, true) && NeverAborts(hosts, steps, 11)
    ensures hosts[11].world.lock == None && !Shows(codec, Empty(node), hosts[11])
  {
    hide HostNext, HostRun, StepWithin, Moment, KernelAt, KernelAfter, Shows, L.Parse, NeverAborts, ConfigOf;
    RunTo(codec, node, p, 10);
    NoAborts(codec, node, p, 10);
    SyncsNoOne(codec, node, p, 10);
    FailsWithin(p);
    var h := HostWorld(Moment(node, p, 10), map[]);
    RunSnoc(codec, {p}, Empty(node), Empty(node), HostsTo(codec, node, p, 10), StepsTo(p, 10), SyncKernel(0, true), h);
    hosts, steps := HostsTo(codec, node, p, 10) + [h], StepsTo(p, 10) + [SyncKernel(0, true)];
    Saved(node, p);
    ShowsAt(codec, node, p, h, true);
  }

  /** From a moment past the update, over a kernel that shows no one, the command saves all the same. */
  lemma {:induction false} SavesRegardless(
    codec: Codec, node: Node, p: Peer, hosts: seq<HostWorld>, steps: seq<HostStep>, i: nat)
    returns (hosts': seq<HostWorld>, steps': seq<HostStep>)
    requires 6 <= i <= 10 && ConfigOf(codec, p).Some?
    requires HostRun(codec, {p}, Empty(node), Empty(node), hosts, steps) && NeverAborts(hosts, steps, |steps|)
    requires hosts[|steps|] == HostWorld(Moment(node, p, i), map[])
    ensures HostRun(codec, {p}, Empty(node), Empty(node), hosts', steps') && NeverAborts(hosts', steps', |steps'|)
    ensures |hosts'| == |steps'| + 1 && hosts'[|steps'|] == HostWorld(Moment(node, p, 10), map[])
    ensures steps <= steps' && |steps'| == |steps| + (10 - i)
    decreases 10 - i
  {
    hide HostNext, StepWithin, Moment, KernelAfter, L.Start, Shows, Usable;
    hosts', steps' := hosts, steps;
    if i < 10 {
      var h, step := HostWorld(Moment(node, p, i + 1), map[]), InStore(StepAt(p, i), true);
      HostMovesEmpty(codec, node, p, i);
      RunSnoc(codec, {p}, Empty(node), Empty(node), hosts, steps, step, h);
      hosts', steps' := SavesRegardless(codec, node, p, hosts + [h], steps + [step], i + 1);
    }
  }

  /** The kernel call does not work: the command warns and saves a peer the kernel never had. No process
      gives up, and no sync comes between. */
  lemma MissedUpdateRun(codec: Codec, node: Node, p: Peer) returns (hosts: seq<HostWorld>, steps: seq<HostStep>)
    requires ConfigOf(codec, p).Some?
    ensures HostRun(codec, {p}, Empty(node), Empty(node), hosts, steps)
    ensures |steps| == 10 && steps[5] == InStore(L.RunFunction(0), false) && NeverAborts(hosts, steps, 10)
    ensures hosts[10].world.lock == None && !Shows(codec, Empty(node), hosts[10])
  {
    hide HostNext, HostRun, StepWithin, Moment, KernelAt, KernelAfter, Shows, L.Parse, NeverAborts, ConfigOf;
    RunTo(codec, node, p, 5);
    NoAborts(codec, node, p, 5);
    MissesTheUpdate(codec, node, p);
    var h, step := HostWorld(Moment(node, p, 6), map[]), InStore(L.RunFunction(0), false);
    RunSnoc(codec, {p}, Empty(node), Empty(node), HostsTo(codec, node, p, 5), StepsTo(p, 5), step, h);
    hosts, steps := HostsTo(codec, node, p, 5) + [h], StepsTo(p, 5) + [step];
    hosts, steps := SavesRegardless(codec, node, p, hosts, steps, 6);
    Saved(node, p);
    ShowsAt(codec, node, p, hosts[10], true);
  }

  lemma MissesTheUpdate(codec: Codec, node: Node, p: Peer)
    requires ConfigOf(codec, p).Some?
    ensures HostNext(codec, Empty(node), HostAt(codec, node, p, 5), InStore(L.RunFunction(0), false),
                     HostWorld(Moment(node, p, 6), map[]))
    ensures StepWithin({p}, InStore(L.RunFunction(0), false))
  {
    MomentMoves(codec, node, p, 5);
    hide L.Next, Moment, KernelAfter;
  }

  /** The sync installs the committed state between the kernel update and the rename: the command then
      saves a peer that the kernel has lost. No process gives up, and the sync read the file as it was. */
  lemma MidCommandRun(codec: Codec, node: Node, p: Peer) returns (hosts: seq<HostWorld>, steps: seq<HostStep>)
    requires ConfigOf(codec, p).Some?
    ensures HostRun(codec, {p}, Empty(node), Empty(node), hosts, steps)
    ensures |steps| == 11 && steps[6] == SyncKernel(0, true) && NeverAborts(hosts, steps, 11)
    ensures hosts[11].world.lock == None && !Shows(codec, Empty(node), hosts[11])
  {
    hide HostNext, HostRun, StepWithin, Moment, KernelAt, KernelAfter, Shows, L.Parse, NeverAborts, ConfigOf;
    RunTo(codec, node, p, 6);
    NoAborts(codec, node, p, 6);
    SyncsNoOne(codec, node, p, 6);
    FailsWithin(p);
    var h := HostWorld(Moment(node, p, 6), map[]);
    RunSnoc(codec, {p}, Empty(node), Empty(node), HostsTo(codec, node, p, 6), StepsTo(p, 6), SyncKernel(0, true), h);
    hosts, steps := HostsTo(codec, node, p, 6) + [h], StepsTo(p, 6) + [SyncKernel(0, true)];
    hosts, steps := SavesRegardless(codec, node, p, hosts, steps, 6);
    Saved(node, p);
    ShowsAt(codec, node, p, hosts[11], true);
  }

  /** Before the lock is taken, the kernel and state.json have no one. */
  lemma NoOneYet(codec: Codec, node: Node, p: Peer, i: nat)
    requires i <= 6 && ConfigOf(codec, p).Some?
    ensures Moment(node, p, i).lock == None <==> i <= 3
    ensures i <= 3 ==> Shows(codec, Empty(node), HostAt(codec, node, p, i))
  {
    if i <= 3 {
      ShowsAt(codec, node, p, HostAt(codec, node, p, i), false);
    }
  }

  lemma FailsAfterSync(codec: Codec, node: Node, p: Peer) returns (h: HostWorld)
    requires ConfigOf(codec, p).Some?
    ensures var was := HostWorld(Moment(node, p, 6), map[]);
            HostNext(codec, Empty(node), was, InStore(L.Fail(0), true), h) && AbortsAt(was, InStore(L.Fail(0), true))
    ensures h.world.lock == None && h.kernel == map[]
    ensures L.Parse(h.world.inodes, h.world.file, Empty(node)) == Some(Empty(node))
  {
    h := HostWorld(L.Left(Moment(node, p, 6), 0, L.Returned(false)), map[]);
  }

  /** Two losses that cancel out: the sync in the middle of the command takes the peer from the kernel,
      and the command then fails to save it. At no lock-free moment is anything amiss. */
  lemma AbortHidesALoss(codec: Codec, node: Node, p: Peer) returns (hosts: seq<HostWorld>, steps: seq<HostStep>)
    requires ConfigOf(codec, p).Some?
    ensures HostRun(codec, {p}, Empty(node), Empty(node), hosts, steps)
    ensures |steps| == 8 && steps[6] == SyncKernel(0, true) && steps[7] == InStore(L.Fail(0), true)
    ensures ShowsWheneverFree(codec, Empty(node), hosts, 8) && !NeverAborts(hosts, steps, 8)
  {
    hide HostNext, HostRun, StepWithin, Moment, KernelAt, KernelAfter, Shows, L.Parse, AbortsAt, ConfigOf;
    RunTo(codec, node, p, 6);
    SyncsNoOne(codec, node, p, 6);
    FailsWithin(p);
    var was := HostWorld(Moment(node, p, 6), map[]);
    RunSnoc(codec, {p}, Empty(node), Empty(node), HostsTo(codec, node, p, 6), StepsTo(p, 6), SyncKernel(0, true), was);
    hosts, steps := HostsTo(codec, node, p, 6) + [was], StepsTo(p, 6) + [SyncKernel(0, true)];
    var h := FailsAfterSync(codec, node, p);
    RunSnoc(codec, {p}, Empty(node), Empty(node), hosts, steps, InStore(L.Fail(0), true), h);
    hosts, steps := hosts + [h], steps + [InStore(L.Fail(0), true)];
    ShowsAt(codec, node, p, h, false);
    forall k | 0 <= k <= 8 && hosts[k].world.lock == None
      ensures Shows(codec, Empty(node), hosts[k])
    {
      NoOneYet(codec, node, p, if k <= 6 then k else 6);
    }
    assert AbortsAt(hosts[7], steps[7]);
  }
}
