/** Flooding in the meshes of `Ring` and `RootMeshes`: where frames circle for ever, and where they go
    nowhere. */
module FloodCases {
  import opened Graph
  import opened Forest
  import opened SpanningTree
  import opened OverlayTopology
  import opened PartialViews
  import opened RootMeshes
  import opened Agent
  import opened Mesh
  import opened Ring
  import opened RingRun
  import opened Flooding
  import opened FloodingEnds
  import opened FloodingWays
  import opened MeshFlooding

  lemma RingIsConnected(ring: seq<Addr>, s: Addr, k: Addr)
    requires IsRing(ring) && s in RingInfos(ring) && k in RingInfos(ring)
    ensures Connected(RingLinks(ring), s, k)
  {
    var i, j := Place(ring, s), Place(ring, k);
    hide Connected, NewEdge;
    AroundTheRing(ring, RingLinks(ring), i);
    AroundTheRing(ring, RingLinks(ring), j);
    ConnectedSym(RingLinks(ring), ring[0], s);
    ConnectedTrans(RingLinks(ring), s, ring[0], k);
  }

  /** In every settled ring of five or more nodes, no flood from any node ever ends. */
  lemma RingFramesCircle(
    ring: seq<Addr>, stale: int, since: int, states: seq<map<Addr, AgentState>>, turns: seq<Turn>, n: nat,
    s: Addr, copies: seq<(Addr, Addr)>)
    requires IsRing(ring) && MeshRun(stale, RingInfos(ring), states, turns) && n <= |turns|
    requires forall who :: who in RingInfos(ring) ==>
               var near := Near(RingInfos(ring), who);
               && HeardOnlyBy(near, turns[..n], who)
               && Settled(stale, RingInfos(ring), near, since, states, turns[..n], who)
    requires s in RingInfos(ring)
    ensures !Ended(ListsIn(states[n]), s, copies)
  {
    hide IsRing, RingInfos, RingLinks, Near, HeardOnlyBy, Settled, Reported, Acyclic, InUse, Ended, Connected;
    hide Symmetric;
    var infos := RingInfos(ring);
    EveryRunLeavesTheRingInUse(ring, stale, since, states, turns, n);
    RingIsSymmetric(ring);
    RingReports(ring);
    forall who | who in infos
      ensures Settled(stale, infos, infos.Keys, since, states, turns[..n], who)
      ensures Connected(Reported(infos), s, who)
    {
      SettledNearby(stale, infos, since, states, turns[..n], who);
      RingIsConnected(ring, s, who);
    }
    ConnectedMeshFloodsEndExactlyWhen(stale, infos, since, states, turns, n, s);
  }

  lemma RootLink(x: Addr, y: Addr)
    requires Reports(ThreeRoots(), x, y)
    ensures Connected(Reported(ThreeRoots()), x, y)
  {
    hide ThreeRoots, Reported;
    EitherSideSuffices(ThreeRoots(), x, y);
    NewEdgeIsEither(x, y);
    ConnectedStep(Reported(ThreeRoots()), x, y);
  }

  lemma RootsReport()
    ensures var infos := ThreeRoots();
            && Reports(infos, "5", "1") && Reports(infos, "5", "2") && Reports(infos, "5", "4")
            && Reports(infos, "5", "6") && Reports(infos, "4", "3")
    ensures forall k :: k in ThreeRoots() ==> k in {"1", "2", "3", "4", "5", "6"}
  {
  }

  lemma FromRootFive(k: Addr)
    requires k in ThreeRoots()
    ensures Connected(Reported(ThreeRoots()), "5", k)
  {
    var E := Reported(ThreeRoots());
    RootsReport();
    hide ThreeRoots, Reported, Connected, Reports;
    RootLink("5", "1");
    RootLink("5", "2");
    RootLink("5", "4");
    RootLink("5", "6");
    RootLink("4", "3");
    ConnectedTrans(E, "5", "4", "3");
    ConnectedRefl(E, "5");
  }

  /** In the three-root mesh neither does any. */
  lemma ThreeRootFramesCircle(
    stale: int, since: int, states: seq<map<Addr, AgentState>>, turns: seq<Turn>, n: nat,
    s: Addr, copies: seq<(Addr, Addr)>)
    requires MeshRun(stale, ThreeRoots(), states, turns) && n <= |turns|
    requires forall who :: who in ThreeRoots() ==> InTouch(stale, ThreeRoots(), since, states, turns[..n], who)
    requires s in ThreeRoots()
    ensures !Ended(ListsIn(states[n]), s, copies)
  {
    hide ThreeRoots, Settled, InTouch, Reported, Acyclic, InUse, Ended, Connected, Symmetric, Rooted, Chosen;
    hide PolledViews, NeverTwice, DetoursAreNear, TreeOf;
    var infos := ThreeRoots();
    ThreeRootsCanLoop();
    FullRoundsGiveThePolledViews(stale, infos, since, states, turns, n);
    FromRootFive(s);
    ConnectedSym(Reported(infos), "5", s);
    forall who | who in infos
      ensures Settled(stale, infos, infos.Keys, since, states, turns[..n], who)
      ensures Connected(Reported(infos), s, who)
    {
      InTouchIsSettled(stale, infos, since, states, turns, n, who);
      FromRootFive(who);
      ConnectedTrans(Reported(infos), s, "5", who);
    }
    ConnectedMeshFloodsEndExactlyWhen(stale, infos, since, states, turns, n, s);
  }

  lemma InTouchIsSettled(
    stale: int, infos: map<Addr, NodeInfo>, since: int,
    states: seq<map<Addr, AgentState>>, turns: seq<Turn>, n: nat, who: Addr)
    requires MeshRun(stale, infos, states, turns) && n <= |turns| && who in infos
    requires InTouch(stale, infos, since, states, turns[..n], who)
    ensures Settled(stale, infos, infos.Keys, since, states, turns[..n], who)
  {
    hide Settled, FullRound, HeardOnlyBy;
    SettledNearby(stale, infos, since, states, turns[..n], who);
  }

  /** Whatever a node of the one-sided mesh can see, a root lists no one, and a leaf no one but roots. */
  lemma OneSidedPicks(view: map<Addr, NodeInfo>, who: Addr, v: Addr)
    requires who in OneSided() && ViewOf(view, OneSided(), who) && view.Keys <= Near(OneSided(), who)
    requires v in Picks(view, who)
    ensures who in {"1", "2"} && v in {"3", "4"}
  {
    PickedIsInTree(view, who, v);
    var k, peer :| k in view && peer in view[k].livePeerIPs && NewEdge(who, v) == NewEdge(k, peer);
    NewEdgeIsUndirected(who, v, k, peer);
    OneSidedReports(k, peer);
    if who !in {"1", "2"} {
      OneSidedReports(who, k);
    }
  }

  lemma OneSidedLists(
    stale: int, since: int, states: seq<map<Addr, AgentState>>, turns: seq<Turn>, n: nat, who: Addr, v: Addr)
    requires MeshRun(stale, OneSided(), states, turns) && n <= |turns|
    requires who in OneSided() && InTouch(stale, OneSided(), since, states, turns[..n], who)
    ensures who in states[n]
    ensures v in states[n][who].lastTreeIPs ==> who in {"1", "2"} && v in {"3", "4"}
  {
    hide OneSided, Settled, Picks, Near, ViewOf, FullRound, HeardOnlyBy;
    SelfIsNear(OneSided(), who);
    SettledAgent(stale, OneSided(), Near(OneSided(), who), since, states, turns, n, who);
    if v in states[n][who].lastTreeIPs {
      OneSidedPicks(states[n][who].nodes, who, v);
    }
  }

  /** Lists from leaves to roots alone leave one way each, a single step long. */
  lemma OneStepWays(tables: map<Addr, seq<Addr>>)
    requires forall k, v :: k in tables && v in tables[k] ==> k in {"1", "2"} && v in {"3", "4"}
    ensures OneWayEach(tables)
  {
    forall s, q | Way(tables, s, q)
      ensures |q| <= 1 && (q != [] ==> q[0] != s)
    {
      OneStepWay(tables, s, q);
    }
    hide Way;
  }

  lemma LeavesAreNotRoots()
    ensures {"1", "2"} !! {"3", "4"}
  {
    assert "1"[0] != "3"[0] && "1"[0] != "4"[0] && "2"[0] != "3"[0] && "2"[0] != "4"[0];
  }

  lemma OneStepWay(tables: map<Addr, seq<Addr>>, s: Addr, q: seq<Addr>)
    requires Way(tables, s, q)
    requires forall k, v :: k in tables && v in tables[k] ==> k in {"1", "2"} && v in {"3", "4"}
    ensures |q| <= 1 && (q != [] ==> q[0] != s)
  {
    LeavesAreNotRoots();
    if q != [] {
      LeafToRoot(tables, s, q, 0);
      if |q| >= 2 { LeafToRoot(tables, s, q, 1); }
    }
  }

  lemma LeafToRoot(tables: map<Addr, seq<Addr>>, s: Addr, q: seq<Addr>, i: nat)
    requires Way(tables, s, q) && i < |q|
    requires forall k, v :: k in tables && v in tables[k] ==> k in {"1", "2"} && v in {"3", "4"}
    ensures At(s, q, i) in {"1", "2"} && q[i] in {"3", "4"}
    ensures if i == 0 then q[0] != s else At(s, q, i) == q[i - 1]
  {
    assert Onward(tables, s, q, i);
  }

  /** Where two roots report no one and their leaves report both, the links in use have a cycle, and still
      no frame comes to a node twice. What fails is reach: a frame from a root goes nowhere, though live
      links connect it to every node. */
  lemma OneSidedFramesGoNowhere(
    stale: int, since: int, states: seq<map<Addr, AgentState>>, turns: seq<Turn>, n: nat, copies: seq<(Addr, Addr)>)
    requires MeshRun(stale, OneSided(), states, turns) && n <= |turns|
    requires forall who :: who in OneSided() ==> InTouch(stale, OneSided(), since, states, turns[..n], who)
    ensures !Acyclic(InUse(states[n])) && NeverTwice(ListsIn(states[n]))
    ensures FloodRun(ListsIn(states[n]), "3", copies) ==> copies == []
    ensures Connected(Reported(OneSided()), "3", "1")
  {
    hide OneSided, MeshRun, InTouch, FloodRun, Reported, Connected, InUse, Acyclic, NeverTwice, OneWayEach;
    OneSidedTables(stale, since, states, turns, n);
    OneSidedCycle(stale, since, states, turns, n);
    OneStepWays(ListsIn(states[n]));
    NeverTwiceOverAnyLists(ListsIn(states[n]));
    LeavesAreNotRoots();
    NothingToSend(ListsIn(states[n]), "3", copies);
    LeafIsConnected();
  }

  lemma OneSidedTables(
    stale: int, since: int, states: seq<map<Addr, AgentState>>, turns: seq<Turn>, n: nat)
    requires MeshRun(stale, OneSided(), states, turns) && n <= |turns|
    requires forall who :: who in OneSided() ==> InTouch(stale, OneSided(), since, states, turns[..n], who)
    ensures n < |states|
    ensures forall k, v :: k in ListsIn(states[n]) && v in ListsIn(states[n])[k] ==> k in {"1", "2"} && v in {"3", "4"}
  {
    hide OneSided, InTouch;
    AgentsStay(stale, OneSided(), states, turns, n);
    forall k, v | k in ListsIn(states[n]) && v in ListsIn(states[n])[k]
      ensures k in {"1", "2"} && v in {"3", "4"}
    {
      OneSidedLists(stale, since, states, turns, n, k, v);
    }
  }

  lemma OneSidedCycle(
    stale: int, since: int, states: seq<map<Addr, AgentState>>, turns: seq<Turn>, n: nat)
    requires MeshRun(stale, OneSided(), states, turns) && n <= |turns|
    requires forall who :: who in OneSided() ==> InTouch(stale, OneSided(), since, states, turns[..n], who)
    ensures n < |states| && !Acyclic(InUse(states[n]))
  {
    hide OneSided, InTouch, InUse, Acyclic, Chosen, PolledViews, Rooted, Symmetric;
    OneSidedRootsCanLoop();
    FullRoundsGiveThePolledViews(stale, OneSided(), since, states, turns, n);
  }

  lemma LeafIsConnected()
    ensures Connected(Reported(OneSided()), "3", "1")
  {
    OneSidedReports("1", "3");
    hide OneSided, Reported;
    EitherSideSuffices(OneSided(), "3", "1");
    NewEdgeIsEither("3", "1");
    ConnectedStep(Reported(OneSided()), "3", "1");
  }

  lemma NothingToSend(tables: map<Addr, seq<Addr>>, s: Addr, copies: seq<(Addr, Addr)>)
    requires s in tables ==> forall v :: v !in tables[s]
    ensures FloodRun(tables, s, copies) ==> copies == []
    decreases |copies|
  {
    if FloodRun(tables, s, copies) && copies != [] {
      NothingToSend(tables, s, copies[..|copies| - 1]);
      FloodStarts(tables, s);
    }
  }
}
