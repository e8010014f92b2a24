/** Flooding over the lists that the agents of a mesh really hold. */
module MeshFlooding {
  import opened Order
  import opened Graph
  import opened Forest
  import opened SpanningTree
  import opened Stability
  import opened OverlayTopology
  import opened PartialViews
  import opened RootMeshes
  import opened Agent
  import opened Mesh
  import opened Ring
  import opened RingRun
  import opened Flooding
  import opened FloodingEnds
  import opened FloodingWays

  ghost function ListsIn(agents: map<Addr, AgentState>): map<Addr, seq<Addr>> {
    map k | k in agents :: agents[k].lastTreeIPs
  }

  /** `who` lists exactly its links in `T`. */
  ghost predicate Lists(agents: map<Addr, AgentState>, who: Addr, T: set<Edge>)
    requires who in agents
  {
    Ascending(Less, agents[who].lastTreeIPs) &&
    forall v :: v in agents[who].lastTreeIPs <==> NewEdge(who, v) in T
  }

  lemma ListsAreTables(infos: map<Addr, NodeInfo>, agents: map<Addr, AgentState>, T: set<Edge>)
    requires agents.Keys == infos.Keys && Symmetric(infos) && T <= Reported(infos)
    requires forall who :: who in agents ==> Lists(agents, who, T)
    ensures Tables(ListsIn(agents), T)
  {
    hide Reported, NewEdge, Ascending;
    forall v | v in agents
      ensures IsTable(agents[v].lastTreeIPs, v, T)
    {
      assert Lists(agents, v, T);
      forall w
        ensures w in Neighbors(v, T) <==> w in agents[v].lastTreeIPs
      {
        AdjacentIsNeighbor(v, w, T);
        AdjacentIsReported(infos, T, v, w);
      }
    }
    hide Lists;
    forall e | e in T
      ensures e.a in infos && e.b in infos
    {
      EndsAreKnown(infos, e);
    }
  }

  lemma EndsAreKnown(infos: map<Addr, NodeInfo>, e: Edge)
    requires Symmetric(infos) && e in Reported(infos)
    ensures e.a in infos && e.b in infos && !Less(e.b, e.a)
  {
    var x, y :| x in infos && y in infos[x].livePeerIPs && e == NewEdge(x, y);
    assert Reports(infos, x, y) && Reports(infos, y, x);
    NewEdgeIsUndirected(x, y, x, y);
  }

  lemma LinksHaveOneName(infos: map<Addr, NodeInfo>, T: set<Edge>)
    requires Symmetric(infos) && T <= Reported(infos) && forall e :: e in T ==> e.a != e.b
    ensures OneName(T)
  {
    forall e | e in T
      ensures Edge(e.b, e.a) !in T
    {
      EndsAreKnown(infos, e);
      if Edge(e.b, e.a) in T {
        EndsAreKnown(infos, Edge(e.b, e.a));
        LessTotal(e.a, e.b);
      }
    }
  }

  lemma NoLoopsInTrees(E: set<Edge>)
    ensures forall e :: e in TreeOf(E) ==> e.a != e.b
  {
    forall e | e in TreeOf(E)
      ensures e.a != e.b
    {
      ConnectedRefl(Below(E, e), e.a);
    }
  }

  /** In a settled mesh with links live at both ends, the lists hold the global tree at both ends, and
      beside it nothing but live links. */
  lemma SettledLists(
    stale: int, infos: map<Addr, NodeInfo>, since: int,
    states: seq<map<Addr, AgentState>>, turns: seq<Turn>, n: nat, who: Addr)
    requires MeshRun(stale, infos, states, turns) && n <= |turns| && Symmetric(infos) && who in infos
    requires Settled(stale, infos, infos.Keys, since, states, turns[..n], who)
    ensures who in states[n] && Ascending(Less, states[n][who].lastTreeIPs)
    ensures forall v :: v in states[n][who].lastTreeIPs ==> v != who && NewEdge(who, v) in Reported(infos)
    ensures forall v :: NewEdge(who, v) in TreeOf(Reported(infos)) ==> v in states[n][who].lastTreeIPs
  {
    AllAreOfTheMesh(stale, infos, states, turns, n, who);
    SettledAgent(stale, infos, infos.Keys, since, states, turns, n, who);
    var view := states[n][who].nodes;
    hide MeshRun, Settled, TreeOf, Reported, Ascending, Picks;
    ViewReportsLess(view, infos, who);
    TreeIsSpanningForest(Reported(view));
    NoLoopsInTrees(Reported(view));
    TreeIsSpanningForest(Reported(infos));
    forall v
      ensures v in states[n][who].lastTreeIPs ==> v != who && NewEdge(who, v) in Reported(infos)
      ensures NewEdge(who, v) in TreeOf(Reported(infos)) ==> v in states[n][who].lastTreeIPs
    {
      PickedIsInTree(view, who, v);
      if NewEdge(who, v) in TreeOf(Reported(infos)) {
        EitherSideSuffices(infos, who, v);
        ReporterKeepsTreeEdge(view, infos, who, v);
      }
    }
  }

  /** The lists of a settled mesh, as `Flooding` wants them. */
  lemma ListsHoldTheTree(
    stale: int, infos: map<Addr, NodeInfo>, since: int,
    states: seq<map<Addr, AgentState>>, turns: seq<Turn>, n: nat)
    requires MeshRun(stale, infos, states, turns) && n <= |turns| && Symmetric(infos)
    requires forall who :: who in infos ==> Settled(stale, infos, infos.Keys, since, states, turns[..n], who)
    ensures var T, tables := TreeOf(Reported(infos)), ListsIn(states[n]);
            && tables.Keys == infos.Keys && SpanningForest(T, Reported(infos)) && OneName(T)
            && Covers(tables, T) && ListsWithin(tables, T) && ListsWithin(tables, Reported(infos))
            && forall k :: k in tables ==> Ascending(Less, tables[k])
  {
    var E, T, tables := Reported(infos), TreeOf(Reported(infos)), ListsIn(states[n]);
    AgentsStay(stale, infos, states, turns, n);
    TreeIsSpanningForest(E);
    NoLoopsInTrees(E);
    forall k | k in infos
      ensures Ascending(Less, tables[k])
      ensures forall v :: v in tables[k] ==> v != k && NewEdge(k, v) in E
      ensures forall v :: NewEdge(k, v) in T ==> v in tables[k]
    {
      SettledLists(stale, infos, since, states, turns, n, k);
    }
    hide MeshRun, Settled, TreeOf, Reported, Ascending, NewEdge, Acyclic;
    LinksHaveOneName(infos, T);
    forall x, y | Adjacent(T, x, y)
      ensures x in tables && y in tables && y in tables[x]
    {
      AdjacentIsReported(infos, T, x, y);
      EitherSideSuffices(infos, x, y);
    }
    forall k, v | k in tables && v in tables[k]
      ensures k != v && Connected(E, k, v) && Connected(T, k, v)
    {
      NewEdgeIsEither(k, v);
      ConnectedStep(E, k, v);
    }
  }

  /** The links in use are the global tree exactly when the lists hold nothing else. */
  lemma ListsOnlyTheTree(infos: map<Addr, NodeInfo>, agents: map<Addr, AgentState>, T: set<Edge>)
    requires T <= Reported(infos) && Covers(ListsIn(agents), T)
    ensures InUse(agents) == T <==> ListsOnly(ListsIn(agents), T)
  {
    hide Reported, NewEdge;
    forall k, v | k in agents && v in agents[k].lastTreeIPs
      ensures NewEdge(k, v) in InUse(agents) && (NewEdge(k, v) in T <==> Adjacent(T, k, v))
    {
      AdjacentIsReported(infos, T, k, v);
    }
    forall e | e in T
      ensures e in InUse(agents)
    {
      assert Adjacent(T, e.a, e.b);
      assert e.b in ListsIn(agents)[e.a];
      AdjacentIsReported(infos, T, e.a, e.b);
      NewEdgeIsEither(e.a, e.b);
      TreeEdgeIsInUse(infos, agents, T, e);
    }
  }

  lemma TreeEdgeIsInUse(infos: map<Addr, NodeInfo>, agents: map<Addr, AgentState>, T: set<Edge>, e: Edge)
    requires e in T && T <= Reported(infos) && e.a in agents && e.b in agents[e.a].lastTreeIPs
    ensures e in InUse(agents)
  {
    var x, y :| x in infos && y in infos[x].livePeerIPs && e == NewEdge(x, y);
    NewEdgeIsUndirected(x, y, e.a, e.b);
    NewEdgeIsEither(x, y);
  }

  /** Of any agents at all, however their lists came about, and whoever else reports their links: where the
      links in use have no cycle, no frame comes to a node twice. */
  lemma AcyclicNeverTwice(agents: map<Addr, AgentState>)
    requires Acyclic(InUse(agents))
    ensures NeverTwice(ListsIn(agents))
  {
    forall k, v | k in agents && v in agents[k].lastTreeIPs
      ensures Adjacent(InUse(agents), k, v)
    {
      NewEdgeIsEither(k, v);
      assert NewEdge(k, v) in InUse(agents);
    }
    LinksWithoutCycle(InUse(agents), ListsIn(agents));
  }

  /** Where links are live at both ends, whatever the views: no frame comes to a node twice exactly when
      the links in use have no cycle. A list that keeps a link beside the tree, at one end or both,
      gives some frame two ways to the other end. */
  lemma FramesNeverTwiceExactlyWhen(
    stale: int, infos: map<Addr, NodeInfo>, since: int,
    states: seq<map<Addr, AgentState>>, turns: seq<Turn>, n: nat)
    requires MeshRun(stale, infos, states, turns) && n <= |turns| && Symmetric(infos)
    requires forall who :: who in infos ==> Settled(stale, infos, infos.Keys, since, states, turns[..n], who)
    ensures NeverTwice(ListsIn(states[n])) <==> Acyclic(InUse(states[n]))
  {
    ListsInUseSpanTheMesh(stale, infos, since, states, turns, n);
    ListsHoldTheTree(stale, infos, since, states, turns, n);
    hide MeshRun, Settled, InUse, NeverTwice, Acyclic, Covers, ListsWithin, ListsOnly, TreeOf, Reported, Symmetric;
    ListsOnlyTheTree(infos, states[n], TreeOf(Reported(infos)));
    NeverTwiceBesideATree(TreeOf(Reported(infos)), ListsIn(states[n]));
  }

  /** The lists around `s` hold tree links only: no node that live links connect to it lists any other. */
  ghost predicate TreeAround(infos: map<Addr, NodeInfo>, agents: map<Addr, AgentState>, s: Addr) {
    forall k, v :: k in agents && v in agents[k].lastTreeIPs && Connected(Reported(infos), s, k) ==>
      NewEdge(k, v) in TreeOf(Reported(infos))
  }

  lemma TreeAroundMeans(infos: map<Addr, NodeInfo>, agents: map<Addr, AgentState>, s: Addr)
    ensures TreeAround(infos, agents, s) <==> OnlyAround(ListsIn(agents), TreeOf(Reported(infos)), s)
  {
    var E, T := Reported(infos), TreeOf(Reported(infos));
    TreeIsSpanningForest(E);
    hide TreeOf, Reported, NewEdge, Acyclic;
    forall k, v
      ensures NewEdge(k, v) in T <==> Adjacent(T, k, v)
    {
      AdjacentIsReported(infos, T, k, v);
    }
  }

  /** A flood ends if and only if the lists around its source hold tree links only. Otherwise every flood
      from there goes on for ever; and where one ends, none makes as many deliveries as there are nodes
      connected to its source, and it has ended when it has made one less. */
  lemma FloodsEndExactlyWhen(
    stale: int, infos: map<Addr, NodeInfo>, since: int,
    states: seq<map<Addr, AgentState>>, turns: seq<Turn>, n: nat, s: Addr)
    requires MeshRun(stale, infos, states, turns) && n <= |turns| && Symmetric(infos) && s in infos
    requires forall who :: who in infos ==> Settled(stale, infos, infos.Keys, since, states, turns[..n], who)
    ensures var tables, nodes := ListsIn(states[n]), ComponentOf(infos.Keys, Reported(infos), s);
            && ((exists copies :: Ended(tables, s, copies)) <==> TreeAround(infos, states[n], s))
            && (TreeAround(infos, states[n], s) ==>
                  forall copies :: FloodRun(tables, s, copies) ==>
                    |copies| < |nodes| && (Ended(tables, s, copies) <==> |copies| + 1 == |nodes|))
  {
    var T, tables := TreeOf(Reported(infos)), ListsIn(states[n]);
    ListsHoldTheTree(stale, infos, since, states, turns, n);
    hide MeshRun, Settled, Symmetric, Covers, ListsWithin, FloodRun, InFlight, Ended, TreeOf, Reported, Acyclic;
    TreeAroundMeans(infos, states[n], s);
    hide TreeAround, OnlyAround;
    EndsBesideATree(T, tables, s);
    assert ComponentOf(infos.Keys, Reported(infos), s) == ComponentOf(tables.Keys, T, s);
    if TreeAround(infos, states[n], s) {
      forall copies | FloodRun(tables, s, copies)
        ensures |copies| < |ComponentOf(tables.Keys, T, s)|
        ensures Ended(tables, s, copies) <==> |copies| + 1 == |ComponentOf(tables.Keys, T, s)|
      {
        FloodCountsDown(T, tables, s, copies);
      }
    }
  }

  /** Whether it ends or not, a flood can always come to exactly the nodes that live links connect to its
      source, whatever it has delivered so far. */
  lemma FloodsReachTheComponent(
    stale: int, infos: map<Addr, NodeInfo>, since: int,
    states: seq<map<Addr, AgentState>>, turns: seq<Turn>, n: nat, s: Addr, copies: seq<(Addr, Addr)>, v: Addr)
    requires MeshRun(stale, infos, states, turns) && n <= |turns| && Symmetric(infos) && s in infos
    requires forall who :: who in infos ==> Settled(stale, infos, infos.Keys, since, states, turns[..n], who)
    requires FloodRun(ListsIn(states[n]), s, copies)
    ensures CanReach(ListsIn(states[n]), s, copies, v) <==> Connected(Reported(infos), s, v)
    ensures Ended(ListsIn(states[n]), s, copies) ==>
              (Delivered(s, copies)[v] >= 1 <==> Connected(Reported(infos), s, v))
  {
    var E, T, tables := Reported(infos), TreeOf(Reported(infos)), ListsIn(states[n]);
    ListsHoldTheTree(stale, infos, since, states, turns, n);
    hide MeshRun, Settled, Covers, ListsWithin, TreeOf, Reported, Symmetric, FloodRun, InFlight, Delivered, Acyclic;
    hide CanReach;
    FloodCanReachExactly(T, tables, s, copies, v);
    if Delivered(s, copies)[v] >= 1 {
      FloodStaysWithin(E, tables, s, copies, v);
    }
    if Ended(tables, s, copies) && Connected(E, s, v) {
      FloodReachesAll(T, tables, s, copies, v);
    }
  }

  /** In a connected mesh: a flood from anywhere ends if and only if the links in use have no cycle. */
  lemma ConnectedMeshFloodsEndExactlyWhen(
    stale: int, infos: map<Addr, NodeInfo>, since: int,
    states: seq<map<Addr, AgentState>>, turns: seq<Turn>, n: nat, s: Addr)
    requires MeshRun(stale, infos, states, turns) && n <= |turns| && Symmetric(infos) && s in infos
    requires forall who :: who in infos ==> Settled(stale, infos, infos.Keys, since, states, turns[..n], who)
    requires forall k :: k in infos ==> Connected(Reported(infos), s, k)
    ensures (exists copies :: Ended(ListsIn(states[n]), s, copies)) <==> Acyclic(InUse(states[n]))
  {
    var T := TreeOf(Reported(infos));
    FloodsEndExactlyWhen(stale, infos, since, states, turns, n, s);
    ListsInUseSpanTheMesh(stale, infos, since, states, turns, n);
    ListsHoldTheTree(stale, infos, since, states, turns, n);
    AgentsStay(stale, infos, states, turns, n);
    hide MeshRun, Settled, InUse, Acyclic, Covers, ListsWithin, TreeOf, Reported, Symmetric, Ended, ComponentOf, Spans;
    ListsOnlyTheTree(infos, states[n], T);
    TreeAroundMeans(infos, states[n], s);
    forall k | k in infos
      ensures Connected(T, s, k)
    {
      assert Connected(Reported(infos), s, k);
      SpansMeans(T, Reported(infos), s, k);
    }
  }

  lemma SpansMeans(F: set<Edge>, E: set<Edge>, u: Addr, v: Addr)
    requires SpanningForest(F, E)
    ensures Connected(F, u, v) <==> Connected(E, u, v)
  {
  }

  /** Where the links in use have no cycle, both ends list every link of the tree and no other. */
  lemma LoopFreeListsFloodOnce(
    stale: int, infos: map<Addr, NodeInfo>, since: int,
    states: seq<map<Addr, AgentState>>, turns: seq<Turn>, n: nat)
    requires MeshRun(stale, infos, states, turns) && n <= |turns| && Symmetric(infos)
    requires forall who :: who in infos ==> Settled(stale, infos, infos.Keys, since, states, turns[..n], who)
    requires Acyclic(InUse(states[n]))
    ensures Tables(ListsIn(states[n]), TreeOf(Reported(infos))) && NeverTwice(ListsIn(states[n]))
  {
    ListsInUseSpanTheMesh(stale, infos, since, states, turns, n);
    ListsHoldTheTree(stale, infos, since, states, turns, n);
    FramesNeverTwiceExactlyWhen(stale, infos, since, states, turns, n);
    hide MeshRun, Settled, InUse, NeverTwice, Acyclic, Covers, ListsWithin, ListsOnly, TreeOf, Reported, Symmetric;
    ListsOnlyTheTree(infos, states[n], TreeOf(Reported(infos)));
    ExactListsAreTables(TreeOf(Reported(infos)), ListsIn(states[n]));
  }

  /** Settled among live peers is settled. */
  lemma SettledNearby(
    stale: int, infos: map<Addr, NodeInfo>, since: int,
    states: seq<map<Addr, AgentState>>, turns: seq<Turn>, who: Addr)
    requires |states| > 0 && who in states[0] && who in infos
    requires Settled(stale, infos, Near(infos, who), since, states, turns, who)
    ensures Settled(stale, infos, infos.Keys, since, states, turns, who)
  {
    hide HasTicked, HasPurged;
  }

  /** Once every node has heard its live peers, the live links alone decide. */
  lemma FramesNeverTwiceAfterFullRounds(
    stale: int, infos: map<Addr, NodeInfo>, since: int,
    states: seq<map<Addr, AgentState>>, turns: seq<Turn>, n: nat)
    requires MeshRun(stale, infos, states, turns) && n <= |turns| && Symmetric(infos)
    requires forall who :: who in infos ==> InTouch(stale, infos, since, states, turns[..n], who)
    ensures NeverTwice(ListsIn(states[n])) <==> forall u, v :: u in infos ==> DetoursAreNear(infos, u, v)
  {
    FullRoundsGiveThePolledViews(stale, infos, since, states, turns, n);
    forall who | who in infos
      ensures Settled(stale, infos, infos.Keys, since, states, turns[..n], who)
    {
      assert InTouch(stale, infos, since, states, turns[..n], who);
      hide MeshRun, FullRound, Settled;
      SettledNearby(stale, infos, since, states, turns[..n], who);
    }
    hide MeshRun, InTouch, Settled, Acyclic, NeverTwice, Symmetric, DetoursAreNear, InUse;
    FramesNeverTwiceExactlyWhen(stale, infos, since, states, turns, n);
  }

  /** Two roots and any leaves: no frame comes to any node twice, once every node has heard its peers. */
  lemma TwoRootMeshFloodsOnce(
    stale: int, infos: map<Addr, NodeInfo>, since: int,
    states: seq<map<Addr, AgentState>>, turns: seq<Turn>, n: nat, r: Addr, s: Addr)
    requires MeshRun(stale, infos, states, turns) && n <= |turns|
    requires forall who :: who in infos ==> InTouch(stale, infos, since, states, turns[..n], who)
    requires Symmetric(infos) && Rooted(infos, {r, s})
    ensures NeverTwice(ListsIn(states[n]))
  {
    FramesNeverTwiceAfterFullRounds(stale, infos, since, states, turns, n);
    hide MeshRun, InTouch, NeverTwice, Symmetric, Rooted, DetoursAreNear, Acyclic, TreeOf, Chosen, PolledViews;
    TwoRootsAreLoopFree(infos, r, s);
    PollingIsLoopFreeExactlyWhen(infos);
  }

  /** Three roots can bring a frame to a node twice: in the mesh of `ThreeRoots`, in every run. */
  lemma ThreeRootFramesComeTwice(
    stale: int, since: int, states: seq<map<Addr, AgentState>>, turns: seq<Turn>, n: nat)
    requires MeshRun(stale, ThreeRoots(), states, turns) && n <= |turns|
    requires forall who :: who in ThreeRoots() ==> InTouch(stale, ThreeRoots(), since, states, turns[..n], who)
    ensures !NeverTwice(ListsIn(states[n]))
  {
    hide ThreeRoots, MeshRun, InTouch, NeverTwice, DetoursAreNear, Acyclic, TreeOf, Chosen, PolledViews, Symmetric;
    ThreeRootsCanLoop();
    FramesNeverTwiceAfterFullRounds(stale, ThreeRoots(), since, states, turns, n);
    PollingIsLoopFreeExactlyWhen(ThreeRoots());
  }

  /** And there are such runs, from fresh agents and with no poll failed. */
  lemma ThreeRootsReachALoop(stale: nat) returns (states: seq<map<Addr, AgentState>>, turns: seq<Turn>)
    ensures MeshRun(stale, ThreeRoots(), states, turns) && states[0] == FreshAgents(ThreeRoots())
    ensures forall who :: who in ThreeRoots() ==> InTouch(stale, ThreeRoots(), 0, states, turns, who)
    ensures !Acyclic(InUse(states[|turns|])) && !NeverTwice(ListsIn(states[|turns|]))
  {
    assert Named(ThreeRoots());
    hide ThreeRoots, MeshRun, InTouch, NeverTwice, Acyclic, InUse, Symmetric, TreeOf, Chosen, PolledViews;
    states, turns := EveryMeshGetsInTouch(stale, ThreeRoots());
    assert turns[..|turns|] == turns;
    ThreeRootsCanLoop();
    FullRoundsGiveThePolledViews(stale, ThreeRoots(), 0, states, turns, |turns|);
    ThreeRootFramesComeTwice(stale, 0, states, turns, |turns|);
  }

  lemma RingIsSymmetric(ring: seq<Addr>)
    requires IsRing(ring)
    ensures Symmetric(RingInfos(ring))
  {
    var infos := RingInfos(ring);
    forall x, y | Reports(infos, x, y)
      ensures Reports(infos, y, x)
    {
      var i := Place(ring, x);
      Places(ring, i);
      InfoAt(ring, i);
      InfoAt(ring, Prev(ring, i));
      InfoAt(ring, Next(ring, i));
    }
  }

  /** A node of a ring lists both its neighbours. */
  lemma RingLists(ring: seq<Addr>, agents: map<Addr, AgentState>, who: Addr)
    requires IsRing(ring) && who in RingInfos(ring) && who in agents
    requires ViewOf(agents[who].nodes, RingInfos(ring), who)
    requires agents[who].nodes.Keys <= Near(RingInfos(ring), who) && Ascending(Less, agents[who].lastTreeIPs)
    requires forall v :: v in agents[who].lastTreeIPs <==> v in Picks(agents[who].nodes, who)
    ensures Lists(agents, who, RingLinks(ring))
  {
    hide IsRing, RingInfos, RingLinks, Reported, TreeOf, Picks, Near, NewEdge, Ascending, Below;
    var infos, view := RingInfos(ring), agents[who].nodes;
    RingReports(ring);
    RingIsSymmetric(ring);
    ViewReportsLess(view, infos, who);
    forall v
      ensures v in agents[who].lastTreeIPs <==> NewEdge(who, v) in RingLinks(ring)
    {
      PickedIsInTree(view, who, v);
      TreeIsSpanningForest(Reported(view));
      if NewEdge(who, v) in Reported(infos) {
        EitherSideSuffices(infos, who, v);
        EitherSideSuffices(view, who, v);
        assert who in ring by { KnownInRing(ring, who); }
        NoDetourInSight(ring, view, Place(ring, who), v);
        DetourIsOutsideTheTree(Reported(view), who, v);
      }
    }
  }

  lemma KnownInRing(ring: seq<Addr>, who: Addr)
    requires IsRing(ring) && who in RingInfos(ring)
    ensures who in ring
  {
  }

  /** In every settled ring, some frame comes to some node twice. */
  lemma RingFramesComeBack(
    ring: seq<Addr>, stale: int, since: int, states: seq<map<Addr, AgentState>>, turns: seq<Turn>, n: nat)
    requires IsRing(ring) && MeshRun(stale, RingInfos(ring), states, turns) && n <= |turns|
    requires forall who :: who in RingInfos(ring) ==>
               var near := Near(RingInfos(ring), who);
               && HeardOnlyBy(near, turns[..n], who)
               && Settled(stale, RingInfos(ring), near, since, states, turns[..n], who)
    ensures Tables(ListsIn(states[n]), RingLinks(ring)) && !NeverTwice(ListsIn(states[n]))
  {
    hide IsRing, RingInfos, RingLinks, Near, HeardOnlyBy, Settled, Reported, Picks, Lists, ViewOf, Ascending;
    var infos, agents := RingInfos(ring), states[n];
    AgentsStay(stale, infos, states, turns, n);
    forall who | who in infos
      ensures Lists(agents, who, RingLinks(ring))
    {
      SelfIsNear(infos, who);
      SettledAgent(stale, infos, Near(infos, who), since, states, turns, n, who);
      RingLists(ring, agents, who);
    }
    RingIsSymmetric(ring);
    forall who | who in infos
      ensures Settled(stale, infos, infos.Keys, since, states, turns[..n], who)
    {
      SettledNearby(stale, infos, since, states, turns[..n], who);
    }
    EveryRunLeavesTheRingInUse(ring, stale, since, states, turns, n);
    FramesNeverTwiceExactlyWhen(stale, infos, since, states, turns, n);
    hide MeshRun, Symmetric, Tables, NeverTwice, Acyclic, InUse;
    RingReports(ring);
    ListsAreTables(infos, agents, RingLinks(ring));
  }
}
