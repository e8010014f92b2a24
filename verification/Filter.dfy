/** The multicast filter in FRR over the life of one host: ticks that push the agent's list, commands
    that render without one, and restarts of the agent, which FRR does not notice. */
module FilterRuns {
  import opened Prelude
  import opened Graph
  import opened SpanningTree
  import opened OverlayTopology
  import opened Agent
  import opened PeerStore
  import opened Config
  import Mesh

  /** The agent, state.json, the configuration FRR runs, and whether the agent has called `frr.Apply`. */
  datatype Host = Host(agent: AgentState, store: State, config: seq<Line>, pushed: bool)

  /** A tick; a command, which may change the store; both say whether their `frr.Apply` succeeded. Or the
      agent's process starts anew. */
  datatype HostEvent =
    | Tick(input: TickInput, push: Option<seq<Addr>>, applied: bool)
    | Command(applied: bool)
    | Restart

  ghost predicate HostStep(stale: int, h: Host, e: HostEvent, h': Host) {
    match e
    case Tick(input, push, applied) =>
      && Step(stale, h.agent, input, h'.agent, push) && h'.store == h.store
      && h'.config == (if push.Some? && applied then Render(h.store, TreeOrAll(h.store, push)) else h.config)
      && h'.pushed == (h.pushed || push.Some?)
    case Command(applied) =>
      && h'.agent == h.agent && h'.pushed == h.pushed
      && h'.config == (if applied then Render(h'.store, TreeOrAll(h'.store, None)) else h.config)
    case Restart => h' == h.(agent := AgentState(map[], []), pushed := false)
  }

  /** Any tick, command or restart can come next, and its apply can succeed or fail. */
  lemma EveryEventIsTaken(stale: int, h: Host, input: TickInput, store: State, applied: bool)
    returns (push: Option<seq<Addr>>, ticked: Host, commanded: Host, restarted: Host)
    ensures HostStep(stale, h, Tick(input, push, applied), ticked)
    ensures HostStep(stale, h, Command(applied), commanded) && commanded.store == store
    ensures HostStep(stale, h, Restart, restarted)
  {
    var agent;
    agent, push := Mesh.EveryInputIsTaken(stale, h.agent, input);
    hide Step, Render;
    var pushed := if push.Some? && applied then Render(h.store, TreeOrAll(h.store, push)) else h.config;
    ticked := Host(agent, h.store, pushed, h.pushed || push.Some?);
    commanded := h.(store := store, config := if applied then Render(store, TreeOrAll(store, None)) else h.config);
    restarted := h.(agent := AgentState(map[], []), pushed := false);
  }

  /** A run from any state of the host. */
  ghost predicate HostRun(stale: int, hosts: seq<Host>, events: seq<HostEvent>) {
    && |hosts| == |events| + 1
    && forall i :: 0 <= i < |events| ==> HostStep(stale, hosts[i], events[i], hosts[i + 1])
  }

  /** A fresh agent on a host whose FRR blocks no one yet. */
  ghost predicate FreshHost(h: Host) {
    h.agent == AgentState(map[], []) && !h.pushed && Read(h.config, Blocked) == []
  }

  /** The configured peers that the agent's list leaves out; no one before the agent's first push. */
  ghost function Unwanted(h: Host): set<string> {
    if h.pushed then Elems(IPs(FlatPeers(h.store))) - Elems(h.agent.lastTreeIPs) else {}
  }

  /** FRR blocks exactly the peers outside the agent's tree. */
  ghost predicate Agrees(h: Host) {
    Elems(Read(h.config, Blocked)) == Unwanted(h)
  }

  /** What an event has to be like to leave FRR in step: an applied push always is, a command or a restart
      only while no peer is unwanted, and an apply that fails only if it would have changed nothing. */
  ghost predicate Harmless(h: Host, e: HostEvent, h': Host) {
    match e
    case Tick(_, push, applied) => push == None || applied || Unwanted(h') == Unwanted(h)
    case Command(applied) => Unwanted(h') == if applied then {} else Unwanted(h)
    case Restart => Unwanted(h) == {}
  }

  lemma RenderedBlocks(s: State, mst: Option<seq<string>>)
    ensures Elems(Read(Render(s, TreeOrAll(s, mst)), Blocked)) ==
            match mst case Some(list) => Elems(IPs(FlatPeers(s))) - Elems(list) case None => {}
  {
    hide Read, Render;
    forall ip
      ensures ip in Read(Render(s, TreeOrAll(s, mst)), Blocked) <==> ip in IPs(FlatPeers(s)) && ip !in TreeOrAll(s, mst)
    {
      BlockedExactly(s, TreeOrAll(s, mst), ip);
    }
  }

  lemma AgreementAcrossOneEvent(stale: int, h: Host, e: HostEvent, h': Host)
    requires HostStep(stale, h, e, h') && Agrees(h)
    ensures Agrees(h') <==> Harmless(h, e, h')
  {
    hide Read, Render, NodesAfter, Picks;
    if e.Command? {
      RenderedBlocks(h'.store, None);
    } else if e.Tick? {
      RenderedBlocks(h.store, e.push);
    }
  }

  /** An applied push puts FRR in step, whatever it held before. */
  lemma PushRepairs(stale: int, h: Host, e: HostEvent, h': Host)
    requires HostStep(stale, h, e, h') && e.Tick? && e.push.Some? && e.applied
    ensures Agrees(h')
  {
    hide Read, Render, NodesAfter, Picks;
    RenderedBlocks(h.store, e.push);
  }

  ghost predicate AgreesThroughout(hosts: seq<Host>, n: nat)
    requires n < |hosts|
  {
    forall k :: 0 <= k <= n ==> Agrees(hosts[k])
  }

  ghost predicate AllHarmless(hosts: seq<Host>, events: seq<HostEvent>, n: nat)
    requires n <= |events| < |hosts|
  {
    forall k :: 0 <= k < n ==> Harmless(hosts[k], events[k], hosts[k + 1])
  }

  /** FRR follows the tree throughout a run exactly when it does at the start and every event is harmless. */
  lemma {:induction false} FollowsTheTreeExactlyWhen(stale: int, hosts: seq<Host>, events: seq<HostEvent>, n: nat)
    requires HostRun(stale, hosts, events) && n <= |events|
    ensures AgreesThroughout(hosts, n) <==> Agrees(hosts[0]) && AllHarmless(hosts, events, n)
  {
    hide HostStep, Harmless;
    if n > 0 {
      hide Agrees;
      FollowsTheTreeExactlyWhen(stale, hosts, events, n - 1);
      assert HostStep(stale, hosts[n - 1], events[n - 1], hosts[n]);
      hide HostRun;
      if AgreesThroughout(hosts, n - 1) {
        AgreementAcrossOneEvent(stale, hosts[n - 1], events[n - 1], hosts[n]);
      }
    }
  }

  /** Every configured peer is on the agent's list. */
  ghost predicate AllListed(h: Host) {
    forall ip :: ip in IPs(FlatPeers(h.store)) ==> ip in h.agent.lastTreeIPs
  }

  /** Commands and restarts come while every configured peer, one the command adds included, is listed. */
  ghost predicate ComesWhileListed(h: Host, e: HostEvent, h': Host) {
    match e
    case Tick(_, _, _) => true
    case Command(_) => h.pushed ==> AllListed(h')
    case Restart => h.pushed ==> AllListed(h)
  }

  /** When no apply fails: FRR follows the tree throughout exactly when it does at the start, and every
      command and restart after a push comes while every configured peer is on the agent's list. */
  lemma WithoutFailures(stale: int, hosts: seq<Host>, events: seq<HostEvent>, n: nat)
    requires HostRun(stale, hosts, events) && n <= |events|
    requires forall k :: 0 <= k < n && !events[k].Restart? ==> events[k].applied
    ensures AgreesThroughout(hosts, n) <==>
            Agrees(hosts[0]) && forall k :: 0 <= k < n ==> ComesWhileListed(hosts[k], events[k], hosts[k + 1])
  {
    FollowsTheTreeExactlyWhen(stale, hosts, events, n);
    forall k | 0 <= k < n
      ensures Harmless(hosts[k], events[k], hosts[k + 1]) <==> ComesWhileListed(hosts[k], events[k], hosts[k + 1])
    {
      assert HostStep(stale, hosts[k], events[k], hosts[k + 1]);
      HarmlessWhenListed(stale, hosts[k], events[k], hosts[k + 1]);
    }
    hide Agrees, Harmless, ComesWhileListed, HostStep;
  }

  lemma HarmlessWhenListed(stale: int, h: Host, e: HostEvent, h': Host)
    requires HostStep(stale, h, e, h') && (!e.Restart? ==> e.applied)
    ensures Harmless(h, e, h') <==> ComesWhileListed(h, e, h')
  {
    hide Step, Read, Render, Unwanted, AllListed;
    UnwantedNone(h);
    UnwantedNone(h');
  }

  lemma UnwantedNone(h: Host)
    ensures Unwanted(h) == {} <==> (h.pushed ==> AllListed(h))
  {
    if h.pushed && Unwanted(h) == {} {
      forall ip | ip in IPs(FlatPeers(h.store))
        ensures ip in h.agent.lastTreeIPs
      {
        assert ip !in Unwanted(h);
      }
    }
  }

  /** The whole configuration FRR should run. */
  ghost function Wanted(h: Host): seq<Line> {
    Render(h.store, if h.pushed then h.agent.lastTreeIPs else IPs(FlatPeers(h.store)))
  }

  ghost predicate Runs(h: Host) {
    h.config == Wanted(h)
  }

  lemma {:induction false} ActivationDependsOnMembership(
    peers: seq<Peer>, clients: bool, a: seq<string>, b: seq<string>)
    requires forall p :: p in peers ==> (p.overlayIP in a <==> p.overlayIP in b)
    ensures ActivateAll(peers, clients, a) == ActivateAll(peers, clients, b)
    decreases |peers|
  {
    if peers != [] {
      ActivationDependsOnMembership(peers[1..], clients, a, b);
    }
  }

  /** With one store, two lists give one configuration exactly when they leave out the same peers. */
  lemma SameStoreSameRendering(s: State, a: seq<string>, b: seq<string>)
    ensures Render(s, a) == Render(s, b) <==> forall ip :: ip in IPs(FlatPeers(s)) ==> (ip in a <==> ip in b)
  {
    if Render(s, a) == Render(s, b) {
      forall ip | ip in IPs(FlatPeers(s))
        ensures ip in a <==> ip in b
      {
        hide Render, Read;
        BlockedExactly(s, a, ip);
        BlockedExactly(s, b, ip);
      }
    }
    if forall ip :: ip in IPs(FlatPeers(s)) ==> (ip in a <==> ip in b) {
      forall p | p in FlatPeers(s)
        ensures p.overlayIP in a <==> p.overlayIP in b
      {
        var i :| 0 <= i < |FlatPeers(s)| && FlatPeers(s)[i] == p;
        assert IPs(FlatPeers(s))[i] == p.overlayIP;
      }
      hide ActivateAll, Header, DeclareAll, Family, Footer, IPs;
      ActivationDependsOnMembership(s.roots, false, a, b);
      ActivationDependsOnMembership(s.leafs, true, a, b);
    }
  }

  /** Opening every peer is what is wanted exactly while none is unwanted. */
  lemma OpenIsWanted(h: Host)
    ensures Render(h.store, TreeOrAll(h.store, None)) == Wanted(h) <==> Unwanted(h) == {}
  {
    UnwantedNone(h);
    hide Render;
    if h.pushed { SameStoreSameRendering(h.store, IPs(FlatPeers(h.store)), h.agent.lastTreeIPs); }
  }

  /** What an event has to be like to leave the whole configuration as wanted. */
  ghost predicate Keeps(h: Host, e: HostEvent, h': Host) {
    match e
    case Tick(_, push, applied) => push == None || applied || Wanted(h') == Wanted(h)
    case Command(applied) => if applied then Unwanted(h') == {} else Wanted(h') == Wanted(h)
    case Restart => Unwanted(h) == {}
  }

  lemma ConfigurationAcrossOneEvent(stale: int, h: Host, e: HostEvent, h': Host)
    requires HostStep(stale, h, e, h') && Runs(h)
    ensures Runs(h') <==> Keeps(h, e, h')
  {
    OpenIsWanted(h);
    OpenIsWanted(h');
    hide Render, Step, Unwanted;
    if e.Tick? { TickWants(stale, h, e, h'); }
  }

  lemma TickWants(stale: int, h: Host, e: HostEvent, h': Host)
    requires HostStep(stale, h, e, h') && e.Tick?
    ensures e.push == None ==> Wanted(h') == Wanted(h)
    ensures e.push.Some? ==> Wanted(h') == Render(h.store, TreeOrAll(h.store, e.push))
  {
    hide Render, NodesAfter, Picks;
  }

  ghost predicate RunsThroughout(hosts: seq<Host>, n: nat)
    requires n < |hosts|
  {
    forall k :: 0 <= k <= n ==> Runs(hosts[k])
  }

  ghost predicate AllKeep(hosts: seq<Host>, events: seq<HostEvent>, n: nat)
    requires n <= |events| < |hosts|
  {
    forall k :: 0 <= k < n ==> Keeps(hosts[k], events[k], hosts[k + 1])
  }

  /** The whole configuration is the wanted one throughout a run exactly when it is at the start and every
      event keeps it so. */
  lemma {:induction false} RunsTheWantedExactlyWhen(
    stale: int, hosts: seq<Host>, events: seq<HostEvent>, n: nat)
    requires HostRun(stale, hosts, events) && n <= |events|
    ensures RunsThroughout(hosts, n) <==> Runs(hosts[0]) && AllKeep(hosts, events, n)
  {
    hide HostStep, Keeps, Runs;
    if n > 0 {
      RunsTheWantedExactlyWhen(stale, hosts, events, n - 1);
      assert HostStep(stale, hosts[n - 1], events[n - 1], hosts[n]);
      hide HostRun;
      if RunsThroughout(hosts, n - 1) {
        ConfigurationAcrossOneEvent(stale, hosts[n - 1], events[n - 1], hosts[n]);
      }
    }
  }

  /** When no apply fails, what keeps the filter right keeps the whole configuration right. */
  lemma RunsTheWantedWithoutFailures(stale: int, hosts: seq<Host>, events: seq<HostEvent>, n: nat)
    requires HostRun(stale, hosts, events) && n <= |events|
    requires forall k :: 0 <= k < n && !events[k].Restart? ==> events[k].applied
    ensures RunsThroughout(hosts, n) <==>
            Runs(hosts[0]) && forall k :: 0 <= k < n ==> ComesWhileListed(hosts[k], events[k], hosts[k + 1])
  {
    RunsTheWantedExactlyWhen(stale, hosts, events, n);
    forall k | 0 <= k < n
      ensures Keeps(hosts[k], events[k], hosts[k + 1]) <==> ComesWhileListed(hosts[k], events[k], hosts[k + 1])
    {
      assert HostStep(stale, hosts[k], events[k], hosts[k + 1]);
      HarmlessWhenListed(stale, hosts[k], events[k], hosts[k + 1]);
      hide HostStep, ComesWhileListed, Wanted, Unwanted;
    }
    hide Runs, Keeps, ComesWhileListed, HostStep;
  }

  /** A configuration as wanted has the filter as wanted. */
  lemma RunsMeansAgrees(h: Host)
    requires Runs(h)
    ensures Agrees(h)
  {
    RenderedBlocks(h.store, if h.pushed then Some(h.agent.lastTreeIPs) else None);
  }

  /** The agent's list has not changed since the state at `i`. */
  ghost predicate ListStays(hosts: seq<Host>, i: nat, j: nat)
    requires i <= j < |hosts|
  {
    forall k :: i <= k <= j ==> hosts[k].agent.lastTreeIPs == hosts[i].agent.lastTreeIPs
  }

  lemma SameListIsNotPushed(stale: int, h: Host, e: HostEvent, h': Host)
    requires HostStep(stale, h, e, h') && e.Tick? && h'.agent.lastTreeIPs == h.agent.lastTreeIPs
    ensures e.push == None && h' == h.(agent := h'.agent)
  {
  }

  lemma NothingPushed(stale: int, hosts: seq<Host>, events: seq<HostEvent>, i: nat, j: nat, k: nat)
    requires HostRun(stale, hosts, events) && i <= k < j <= |events| && ListStays(hosts, i, j)
    ensures events[k].Tick? ==> events[k].push == None
    ensures events[k].Tick? ==> hosts[k + 1] == hosts[k].(agent := hosts[k + 1].agent)
  {
    assert HostStep(stale, hosts[k], events[k], hosts[k + 1]);
    hide HostRun, HostStep;
    if events[k].Tick? { SameListIsNotPushed(stale, hosts[k], events[k], hosts[k + 1]); }
  }

  /** A failed `frr.Apply` is not retried: the list it was given is remembered as if it had been applied,
      so for as long as the tree stays the same no tick pushes, and FRR stays as wrong as it was, in its
      filter, and in the neighbours a failed command should have given it or taken from it. */
  lemma {:induction false} FailedApplyIsNotRetried(
    stale: int, hosts: seq<Host>, events: seq<HostEvent>, i: nat, j: nat)
    requires HostRun(stale, hosts, events) && i <= j <= |events| && ListStays(hosts, i, j)
    requires forall k :: i <= k < j ==> events[k].Tick?
    ensures forall k :: i <= k < j ==> events[k].push == None
    ensures hosts[j] == hosts[i].(agent := hosts[j].agent)
    ensures (Agrees(hosts[j]) <==> Agrees(hosts[i])) && (Runs(hosts[j]) <==> Runs(hosts[i]))
    decreases j
  {
    hide Agrees, Runs;
    if i < j {
      FailedApplyIsNotRetried(stale, hosts, events, i, j - 1);
      NothingPushed(stale, hosts, events, i, j, j - 1);
    }
    hide HostRun;
    SameListSameVerdict(hosts[i], hosts[j]);
  }

  lemma SameListSameVerdict(h: Host, h': Host)
    requires h' == h.(agent := h'.agent) && h'.agent.lastTreeIPs == h.agent.lastTreeIPs
    ensures (Agrees(h') <==> Agrees(h)) && (Runs(h') <==> Runs(h))
  {
    hide Read, Render;
  }

  /** A filter lifted by a command stays lifted: until the agent's list changes, no tick pushes it, and
      no further command brings it back. FRR is then wrong for as long as some peer is unwanted. */
  lemma {:induction false} LiftedFilterStaysLifted(
    stale: int, hosts: seq<Host>, events: seq<HostEvent>, i: nat, j: nat)
    requires HostRun(stale, hosts, events) && i < j <= |events| && ListStays(hosts, i, j)
    requires events[i] == Command(true)
    ensures forall k :: i <= k < j && events[k].Tick? ==> events[k].push == None
    ensures Read(hosts[j].config, Blocked) == []
    ensures Agrees(hosts[j]) <==> (hosts[j].pushed ==> AllListed(hosts[j]))
    decreases j
  {
    hide Agrees, Read, Step, Render;
    var k := j - 1;
    assert HostStep(stale, hosts[k], events[k], hosts[j]);
    if i < k {
      LiftedFilterStaysLifted(stale, hosts, events, i, k);
      NothingPushed(stale, hosts, events, i, j, k);
    }
    hide HostRun;
    if events[k].Command? && events[k].applied {
      CommandsLiftTheFilter(hosts[j].store, []);
    }
    OpenAgrees(hosts[j]);
  }

  lemma OpenAgrees(h: Host)
    requires Read(h.config, Blocked) == []
    ensures Agrees(h) <==> (h.pushed ==> AllListed(h))
  {
    UnwantedNone(h);
  }

  /** Whether the event gives FRR a new configuration. */
  ghost predicate Configures(e: HostEvent) {
    match e
    case Tick(_, push, applied) => push.Some? && applied
    case Command(applied) => applied
    case Restart => false
  }

  /** FRR keeps its filter until an apply succeeds, over restarts of the agent and anything else. */
  lemma {:induction false} FilterOutlivesTheAgent(
    stale: int, hosts: seq<Host>, events: seq<HostEvent>, i: nat, j: nat)
    requires HostRun(stale, hosts, events) && i <= j <= |events|
    requires forall k :: i <= k < j ==> !Configures(events[k])
    ensures hosts[j].config == hosts[i].config
    decreases j
  {
    if i < j {
      FilterOutlivesTheAgent(stale, hosts, events, i, j - 1);
      assert HostStep(stale, hosts[j - 1], events[j - 1], hosts[j]);
      hide HostRun, Step, Render;
    }
  }

  /** A tick that ends with an empty tree. */
  ghost predicate IdleTick(e: HostEvent, h': Host) {
    e.Tick? && h'.agent.lastTreeIPs == []
  }

  /** An agent restarted into an empty tree takes it for the list it already has: no tick pushes, and FRR
      filters by the tree of the process before for as long as there are only such ticks. */
  lemma {:induction false} EmptyTreeIsNeverPushed(
    stale: int, hosts: seq<Host>, events: seq<HostEvent>, i: nat, j: nat)
    requires HostRun(stale, hosts, events) && i < j <= |events| && events[i].Restart?
    requires forall k :: i < k < j ==> IdleTick(events[k], hosts[k + 1])
    ensures forall k :: i < k < j ==> events[k].Tick? && events[k].push == None
    ensures hosts[j].config == hosts[i].config && !hosts[j].pushed && hosts[j].agent.lastTreeIPs == []
    ensures Agrees(hosts[j]) <==> Elems(Read(hosts[i].config, Blocked)) == {}
    decreases j
  {
    var k := j - 1;
    assert HostStep(stale, hosts[k], events[k], hosts[j]);
    hide HostRun, Step, Read, Render;
    if i < k {
      EmptyTreeIsNeverPushed(stale, hosts, events, i, k);
      assert IdleTick(events[k], hosts[k + 1]);
      SameListIsNotPushed(stale, hosts[k], events[k], hosts[j]);
    }
  }

  /** A tick that learns of one neighbour, and a second one just like it. */
  lemma SameTickTwice() returns (input: TickInput, s: AgentState)
    ensures Step(90, AgentState(map[], []), input, s, Some(["b"])) && Step(90, s, input, s, None)
    ensures s.lastTreeIPs == ["b"]
  {
    var self := NodeInfo("a", "a", ["b", "c"], ["b"], 0);
    input := Polled("a", self, 0, [Failed], 0);
    s := AgentState(map["a" := self], ["b"]);
    assert StoreReplies(map["a" := self], []) == map["a" := self];
    assert StoreReplies(map["a" := self], [Failed]) == map["a" := self] by {
      assert [Failed][..0] == [];
    }
    assert NodesAfter(map[], 90, input) == NodesAfter(s.nodes, 90, input) == s.nodes;
    OneNeighbour(s.nodes);
  }

  lemma OneNeighbour(nodes: map<Addr, NodeInfo>)
    requires nodes.Keys == {"a"} && nodes["a"].livePeerIPs == ["b"]
    ensures Picks(nodes, "a") == {"b"} == Elems(["b"])
  {
    var e := NewEdge("a", "b");
    assert Reported(nodes) == {e} by {
      assert "b" in nodes["a"].livePeerIPs;
    }
    assert e == Edge("a", "b");
    BeforeTotal(e, e);
    assert Below({e}, e) == {};
    ConnectedWithoutEdges("a", "b");
    assert "a"[0] != "b"[0];
    assert TreeOf({e}) == {e};
    assert Picks(nodes, "a") == {"b"};
  }

  /** A store with two peers, one of them out of the tree. */
  ghost function TwoPeers(): State {
    State(Node("a", "a", 64512, 100), [Peer("b", "B", "b", ""), Peer("c", "C", "c", "")], [])
  }

  lemma OneUnwanted(h: Host)
    requires h.store == TwoPeers() && h.agent.lastTreeIPs == ["b"] && h.pushed
    ensures Unwanted(h) == {"c"}
  {
    assert IPs(FlatPeers(h.store)) == ["b", "c"];
    assert "b"[0] != "c"[0];
  }

  /** Out of step after a push that fails: the next tick does not repeat it. */
  lemma StuckRun() returns (hosts: seq<Host>, events: seq<HostEvent>)
    ensures HostRun(90, hosts, events) && FreshHost(hosts[0]) && |events| == 2
    ensures events[0].Tick? && events[0].push == Some(["b"]) && !events[0].applied
    ensures events[1] == Tick(events[0].input, None, true)
    ensures !Agrees(hosts[2])
  {
    hide Step, Read, Render, TwoPeers;
    var input, s := SameTickTwice();
    var open := Render(TwoPeers(), TreeOrAll(TwoPeers(), None));
    RenderedBlocks(TwoPeers(), None);
    EmptyElems(Read(open, Blocked));
    var h := Host(s, TwoPeers(), open, true);
    hosts := [Host(AgentState(map[], []), TwoPeers(), open, false), h, h];
    events := [Tick(input, Some(["b"]), false), Tick(input, None, true)];
    OneUnwanted(h);
  }

  /** Out of step after a `sync` that succeeds: the next tick does not put the filter back. */
  lemma LiftedRun() returns (hosts: seq<Host>, events: seq<HostEvent>)
    ensures HostRun(90, hosts, events) && FreshHost(hosts[0]) && |events| == 3
    ensures events[0].Tick? && events[0].push == Some(["b"]) && events[0].applied
    ensures events[1] == Command(true) && hosts[2].store == hosts[1].store
    ensures events[2] == Tick(events[0].input, None, true)
    ensures Agrees(hosts[1]) && !Agrees(hosts[3])
  {
    hide Step, Read, Render, TwoPeers;
    var input, s := SameTickTwice();
    var open := Render(TwoPeers(), TreeOrAll(TwoPeers(), None));
    var shut := Render(TwoPeers(), TreeOrAll(TwoPeers(), Some(["b"])));
    RenderedBlocks(TwoPeers(), None);
    RenderedBlocks(TwoPeers(), Some(["b"]));
    EmptyElems(Read(open, Blocked));
    var h := Host(s, TwoPeers(), open, true);
    hosts := [Host(AgentState(map[], []), TwoPeers(), open, false), h.(config := shut), h, h];
    events := [Tick(input, Some(["b"]), true), Command(true), Tick(input, None, true)];
    OneUnwanted(h);
  }

  /** Out of step after a `peer add` whose reload fails: the next tick leaves FRR without the neighbour. */
  lemma MissingNeighbourRun() returns (hosts: seq<Host>, events: seq<HostEvent>)
    ensures HostRun(90, hosts, events) && FreshHost(hosts[0]) && |events| == 3
    ensures events[0].Tick? && events[0].applied && events[1] == Command(false)
    ensures events[2] == Tick(events[0].input, None, true)
    ensures Runs(hosts[1]) && !Runs(hosts[3])
    ensures "d" in IPs(FlatPeers(hosts[3].store)) && "d" !in Read(hosts[3].config, Activated)
  {
    hide Step, Read, Render, TwoPeers, IPs;
    var input, s := SameTickTwice();
    var three := TwoPeers().(leafs := [Peer("d", "D", "d", "")]);
    var open := Render(TwoPeers(), TreeOrAll(TwoPeers(), None));
    var shut := Render(TwoPeers(), TreeOrAll(TwoPeers(), Some(["b"])));
    ThirdIsMissing(three);
    RenderedBlocks(TwoPeers(), None);
    EmptyElems(Read(open, Blocked));
    var h := Host(s, TwoPeers(), shut, true);
    hosts := [Host(AgentState(map[], []), TwoPeers(), open, false), h, h.(store := three), h.(store := three)];
    events := [Tick(input, Some(["b"]), true), Command(false), Tick(input, None, true)];
  }

  lemma ThirdIsMissing(three: State)
    requires three == TwoPeers().(leafs := [Peer("d", "D", "d", "")])
    ensures "d" in IPs(FlatPeers(three)) && "d" !in Read(Render(TwoPeers(), ["b"]), Activated)
    ensures Render(TwoPeers(), ["b"]) != Render(three, ["b"])
  {
    ThirdPeer(three);
    hide Read, Render, TwoPeers, IPs;
    ReadRender(TwoPeers(), ["b"], Activated);
    ReadRender(three, ["b"], Activated);
  }

  lemma ThirdPeer(three: State)
    requires three == TwoPeers().(leafs := [Peer("d", "D", "d", "")])
    ensures "d" in IPs(FlatPeers(three)) && "d" !in IPs(FlatPeers(TwoPeers()))
  {
    assert IPs(FlatPeers(TwoPeers())) == ["b", "c"] && IPs(FlatPeers(three)) == ["b", "c", "d"];
    assert "d"[0] != "b"[0] && "d"[0] != "c"[0];
  }

  /** A tick in which no peer is live. */
  lemma LonelyTick() returns (input: TickInput, s: AgentState)
    ensures Step(90, AgentState(map[], []), input, s, None) && s.lastTreeIPs == []
  {
    var self := NodeInfo("a", "a", ["b", "c"], [], 0);
    input := Polled("a", self, 0, [], 0);
    s := AgentState(map["a" := self], []);
    assert StoreReplies(map["a" := self], []) == map["a" := self];
    assert NodesAfter(map[], 90, input) == s.nodes;
    assert Reported(s.nodes) == {};
    assert TreeOf({}) == {};
  }

  /** Out of step after a restart: the links die with the process, and the filter for them stays. */
  lemma RestartRun() returns (hosts: seq<Host>, events: seq<HostEvent>)
    ensures HostRun(90, hosts, events) && FreshHost(hosts[0]) && |events| == 3
    ensures events[0].Tick? && events[0].push == Some(["b"]) && events[0].applied && events[1] == Restart
    ensures events[2].Tick? && events[2].push == None && hosts[3].agent.lastTreeIPs == []
    ensures Agrees(hosts[1]) && !Agrees(hosts[3]) && Elems(Read(hosts[3].config, Blocked)) == {"c"}
  {
    hide Step, Read, Render, TwoPeers;
    var input, s := SameTickTwice();
    var lonely, t := LonelyTick();
    var open := Render(TwoPeers(), TreeOrAll(TwoPeers(), None));
    var shut := Render(TwoPeers(), TreeOrAll(TwoPeers(), Some(["b"])));
    RenderedBlocks(TwoPeers(), None);
    RenderedBlocks(TwoPeers(), Some(["b"]));
    EmptyElems(Read(open, Blocked));
    var young := AgentState(map[], []);
    var h := Host(s, TwoPeers(), shut, true);
    hosts := [Host(young, TwoPeers(), open, false), h, Host(young, TwoPeers(), shut, false),
              Host(t, TwoPeers(), shut, false)];
    events := [Tick(input, Some(["b"]), true), Restart, Tick(lonely, None, true)];
    OneUnwanted(h);
  }

  lemma EmptyElems(s: seq<string>)
    ensures Elems(s) == {} <==> s == []
  {
    if s != [] { assert s[0] in Elems(s); }
  }
}
