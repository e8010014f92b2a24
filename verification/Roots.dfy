/** Which shapes of mesh polling is enough for: two roots and any leaves, and no more roots than that. */
module RootMeshes {
  import opened Order
  import opened Graph
  import opened Forest
  import opened SpanningTree
  import opened OverlayTopology
  import opened PartialViews

  /** Links are live at both ends or at neither, between known nodes. */
  ghost predicate Symmetric(infos: map<Addr, NodeInfo>) {
    forall x, y :: Reports(infos, x, y) ==> Reports(infos, y, x)
  }

  /** Every link has a root at an end. */
  ghost predicate Rooted(infos: map<Addr, NodeInfo>, roots: set<Addr>) {
    forall x, y :: Reports(infos, x, y) ==> x in roots || y in roots
  }

  /** Two roots and any leaves: one common tree, whichever links are down. */
  lemma TwoRootsAreLoopFree(infos: map<Addr, NodeInfo>, r: Addr, s: Addr)
    requires Symmetric(infos) && Rooted(infos, {r, s})
    ensures Acyclic(Chosen(PolledViews(infos))) && Chosen(PolledViews(infos)) == TreeOf(Reported(infos))
  {
    hide Chosen, TreeOf, Reported, PolledViews, Acyclic;
    forall u, v | u in infos
      ensures DetoursAreNear(infos, u, v)
    {
      if u in {r, s} {
        RootSeesItsDetours(infos, u, if u == r then s else r, v);
      } else {
        LeafSeesItsDetours(infos, r, s, u, v);
      }
    }
    PollingIsLoopFreeExactlyWhen(infos);
  }

  lemma AdjacentMeansReports(infos: map<Addr, NodeInfo>, e: Edge, x: Addr, y: Addr)
    requires Symmetric(infos) && Adjacent(Below(Reported(infos), e), x, y)
    ensures Reports(infos, x, y) && Reports(infos, y, x)
    ensures NewEdge(x, y) != e && NewEdge(x, y) in Below(Reported(infos), e)
  {
    AdjacentIsReported(infos, Below(Reported(infos), e), x, y);
    EitherSideSuffices(infos, x, y);
    BeforeTotal(e, e);
  }

  /** A link that one end reports is near `u` when that end is `u` or its live peer. */
  lemma NearStep(infos: map<Addr, NodeInfo>, u: Addr, e: Edge, k: Addr, peer: Addr)
    requires u in infos && k in Near(infos, u) && peer in infos[k].livePeerIPs
    requires NewEdge(k, peer) in Below(Reported(infos), e)
    ensures Connected(Below(NearLinks(infos, u), e), k, peer)
    ensures Connected(Below(NearLinks(infos, u), e), peer, k)
  {
    var B := Below(NearLinks(infos, u), e);
    assert NewEdge(k, peer) in NearLinks(infos, u);
    assert NewEdge(k, peer) in B;
    assert Adjacent(B, k, peer) && Adjacent(B, peer, k);
    ConnectedStep(B, k, peer);
    ConnectedStep(B, peer, k);
  }

  lemma NearLink(infos: map<Addr, NodeInfo>, u: Addr, k: Addr, peer: Addr)
    requires u in infos && k in Near(infos, u) && peer in infos[k].livePeerIPs
    ensures NewEdge(k, peer) in NearLinks(infos, u)
  {
  }

  /** A node next to both roots sees every link. */
  lemma SeesBothRoots(infos: map<Addr, NodeInfo>, u: Addr, r: Addr, s: Addr)
    requires Symmetric(infos) && Rooted(infos, {r, s}) && u in infos
    requires (r == u || Reports(infos, u, r)) && (s == u || Reports(infos, u, s))
    ensures NearLinks(infos, u) == Reported(infos)
  {
    PolledViewAt(infos, u);
    forall e | e in Reported(infos)
      ensures e in NearLinks(infos, u)
    {
      var x, y :| x in infos && y in infos[x].livePeerIPs && e == NewEdge(x, y);
      assert Reports(infos, x, y) && Reports(infos, y, x);
      NewEdgeIsUndirected(x, y, y, x);
      if x in {r, s} {
        NearLink(infos, u, x, y);
      } else {
        NearLink(infos, u, y, x);
      }
    }
  }

  lemma LeafSeesItsDetours(infos: map<Addr, NodeInfo>, r: Addr, s: Addr, u: Addr, v: Addr)
    requires Symmetric(infos) && Rooted(infos, {r, s}) && u in infos && u !in {r, s}
    ensures DetoursAreNear(infos, u, v)
  {
    hide NearLinks, Reported, Below;
    var e := NewEdge(u, v);
    if Reports(infos, u, r) && Reports(infos, u, s) {
      SeesBothRoots(infos, u, r, s);
    } else if e in NearLinks(infos, u) {
      PolledViewAt(infos, u);
      EitherSideSuffices(infos, u, v);
      var G := Below(Reported(infos), e);
      forall y
        ensures !Adjacent(G, u, y)
      {
        if Adjacent(G, u, y) { AdjacentMeansReports(infos, e, u, y); }
      }
      if Connected(G, u, v) { ConnectedStaysInside(G, iset{u}, u, v); }
    }
  }

  /** At a root out of the other's sight: a detour passes the other root, and its leaves on the way
      are live peers of both. */
  lemma RootSeesItsDetours(infos: map<Addr, NodeInfo>, u: Addr, s: Addr, v: Addr)
    requires Symmetric(infos) && Rooted(infos, {u, s}) && u in infos
    ensures DetoursAreNear(infos, u, v)
  {
    hide NearLinks, Reported, Below;
    var e := NewEdge(u, v);
    if s == u || Reports(infos, u, s) {
      SeesBothRoots(infos, u, u, s);
    } else if e in NearLinks(infos, u) && Connected(Below(Reported(infos), e), u, v) {
      PolledViewAt(infos, u);
      EitherSideSuffices(infos, u, v);
      assert Reports(infos, u, v);
      var G, B := Below(Reported(infos), e), Below(NearLinks(infos, u), e);
      var inside := iset x | RootInside(infos, B, u, s, x);
      ConnectedRefl(B, u);
      forall x, y | x in inside && Adjacent(G, x, y)
        ensures y in inside
      {
        RootStep(infos, e, u, s, x, y);
      }
      ConnectedStaysInside(G, inside, u, v);
    }
  }

  /** What near links reach from the root `u`; a leaf out of sight hangs on the other root. */
  ghost predicate RootInside(infos: map<Addr, NodeInfo>, B: set<Edge>, u: Addr, s: Addr, x: Addr)
    requires u in infos
  {
    if x == u || x == s || x in infos[u].livePeerIPs then Connected(B, u, x) else Connected(B, u, s)
  }

  lemma RootStep(infos: map<Addr, NodeInfo>, e: Edge, u: Addr, s: Addr, x: Addr, y: Addr)
    requires Symmetric(infos) && Rooted(infos, {u, s}) && u in infos && s != u && !Reports(infos, u, s)
    requires Adjacent(Below(Reported(infos), e), x, y)
    requires RootInside(infos, Below(NearLinks(infos, u), e), u, s, x)
    ensures RootInside(infos, Below(NearLinks(infos, u), e), u, s, y)
  {
    hide NearLinks, Reported, Below;
    var B := Below(NearLinks(infos, u), e);
    AdjacentMeansReports(infos, e, x, y);
    NewEdgeIsUndirected(x, y, y, x);
    if x == u || x in infos[u].livePeerIPs {
      NearStep(infos, u, e, x, y);
      ConnectedTrans(B, u, x, y);
    } else if y == u || y in infos[u].livePeerIPs {
      assert x == s;
      NearStep(infos, u, e, y, x);
      ConnectedTrans(B, u, x, y);
    }
  }

  ghost function Report(ip: Addr, live: seq<Addr>): NodeInfo {
    NodeInfo("", ip, live, live, 0)
  }

  /** Three roots "4", "5" and "6", each live to the others, and three leaves on two roots each. */
  ghost function ThreeRoots(): map<Addr, NodeInfo> {
    map ip | ip in {"1", "2", "3", "4", "5", "6"} :: Report(ip, LiveOf(ip))
  }

  ghost function LiveOf(ip: Addr): seq<Addr> {
    if ip == "1" then ["4", "5"]
    else if ip == "2" then ["5", "6"]
    else if ip == "3" then ["4", "6"]
    else if ip == "4" then ["1", "3", "5", "6"]
    else if ip == "5" then ["1", "2", "4", "6"]
    else ["2", "3", "4", "5"]
  }

  lemma ReportsAre(x: Addr, y: Addr)
    ensures Reports(ThreeRoots(), x, y) <==> x in {"1", "2", "3", "4", "5", "6"} && y in LiveOf(x)
  {
  }

  lemma LiveBothWays(x: Addr, y: Addr)
    requires x in {"1", "2", "3", "4", "5", "6"} && y in LiveOf(x)
    ensures y in {"1", "2", "3", "4", "5", "6"} && x in LiveOf(y) && (x in {"4", "5", "6"} || y in {"4", "5", "6"})
  {
  }

  lemma ThreeRootsLinks()
    ensures Symmetric(ThreeRoots()) && Rooted(ThreeRoots(), {"4", "5", "6"})
  {
    hide ThreeRoots, LiveOf, Reports;
    forall x, y | Reports(ThreeRoots(), x, y)
      ensures Reports(ThreeRoots(), y, x) && (x in {"4", "5", "6"} || y in {"4", "5", "6"})
    {
      ReportsAre(x, y);
      ReportsAre(y, x);
      LiveBothWays(x, y);
    }
  }

  lemma LessOfDigits(x: char, y: char)
    ensures Less([x], [y]) <==> x < y
  {
    assert [x][1..] == [] && [y][1..] == [];
  }

  lemma DigitsInOrder(x: char, y: char, a: char, b: char)
    ensures NewEdge([x], [y]) == if x <= y then Edge([x], [y]) else Edge([y], [x])
    ensures Before(NewEdge([x], [y]), Edge([a], [b])) <==>
            (x < a || y < a || (x == a && y < b) || (y == a && x < b))
  {
    LessOfDigits(x, y);
    LessOfDigits(y, x);
    LessOfDigits(x, a);
    LessOfDigits(y, a);
    LessOfDigits(x, b);
    LessOfDigits(y, b);
  }

  lemma DetourStep(infos: map<Addr, NodeInfo>, a: char, b: char, x: Addr, y: Addr)
    requires |x| == |y| == 1 && Reports(infos, x, y)
    requires x[0] < a || y[0] < a || (x[0] == a && y[0] < b) || (y[0] == a && x[0] < b)
    ensures Connected(Below(Reported(infos), Edge([a], [b])), x, y)
    ensures Connected(Below(Reported(infos), Edge([a], [b])), y, x)
  {
    var B := Below(Reported(infos), Edge([a], [b]));
    assert x == [x[0]] && y == [y[0]];
    DigitsInOrder(x[0], y[0], a, b);
    EitherSideSuffices(infos, x, y);
    ConnectedStep(B, x, y);
    ConnectedStep(B, y, x);
  }

  lemma ReportsOnTheWay()
    ensures var infos := ThreeRoots();
            && Reports(infos, "3", "4") && Reports(infos, "4", "1") && Reports(infos, "1", "5")
            && Reports(infos, "5", "2") && Reports(infos, "2", "6")
  {
  }

  /** The way round: 3, 4, 1, 5, 2, 6. */
  lemma ThreeRootsDetour()
    ensures NewEdge("3", "6") == Edge("3", "6")
    ensures Connected(Below(Reported(ThreeRoots()), Edge("3", "6")), "3", "6")
  {
    var B := Below(Reported(ThreeRoots()), Edge("3", "6"));
    hide ThreeRoots, Reported, Below, Reports;
    assert "3" == ['3'] && "6" == ['6'];
    DigitsInOrder('3', '6', '3', '6');
    ReportsOnTheWay();
    DetourStep(ThreeRoots(), '3', '6', "3", "4");
    DetourStep(ThreeRoots(), '3', '6', "4", "1");
    DetourStep(ThreeRoots(), '3', '6', "1", "5");
    DetourStep(ThreeRoots(), '3', '6', "5", "2");
    DetourStep(ThreeRoots(), '3', '6', "2", "6");
    ConnectedTrans(B, "3", "4", "1");
    ConnectedTrans(B, "3", "1", "5");
    ConnectedTrans(B, "3", "5", "2");
    ConnectedTrans(B, "3", "2", "6");
  }

  lemma NearThree(k: Addr, peer: Addr)
    requires k in Near(ThreeRoots(), "3") && peer in ThreeRoots()[k].livePeerIPs
    ensures k == "3" ==> peer in {"4", "6"}
    ensures k == "4" ==> peer in {"1", "3", "5", "6"}
    ensures k == "6" ==> peer in {"2", "3", "4", "5"}
    ensures k in {"3", "4", "6"}
  {
  }

  lemma SightStep(x: Addr, y: Addr)
    requires x in {"1", "3", "4"} && Adjacent(Below(NearLinks(ThreeRoots(), "3"), Edge("3", "6")), x, y)
    ensures y in {"1", "3", "4"}
  {
    var infos, B := ThreeRoots(), Below(NearLinks(ThreeRoots(), "3"), Edge("3", "6"));
    PolledViewAt(infos, "3");
    AdjacentIsReported(infos, B, x, y);
    var k, peer :| k in Near(infos, "3") && peer in infos[k].livePeerIPs && NewEdge(x, y) == NewEdge(k, peer);
    NewEdgeIsUndirected(x, y, k, peer);
    NearThree(k, peer);
    hide ThreeRoots, LiveOf, Near, NearLinks;
    DigitsInOrder(x[0], y[0], '3', '6');
  }

  lemma OwnLinkIsInSight()
    ensures "3" in ThreeRoots() && Edge("3", "6") in NearLinks(ThreeRoots(), "3")
  {
    var infos := ThreeRoots();
    assert "3" in infos && infos["3"].livePeerIPs == LiveOf("3") && "6" in LiveOf("3");
    hide *;
    DigitsInOrder('3', '6', '3', '6');
    SelfIsNear(infos, "3");
    NearLink(infos, "3", "3", "6");
  }

  lemma DetourIsOutOfSight()
    requires "3" in ThreeRoots()
    ensures !Connected(Below(NearLinks(ThreeRoots(), "3"), Edge("3", "6")), "3", "6")
  {
    hide ThreeRoots, NearLinks, Below, Connected, Adjacent;
    var B := Below(NearLinks(ThreeRoots(), "3"), Edge("3", "6"));
    var inside := iset{"1", "3", "4"};
    if Connected(B, "3", "6") {
      forall x, y | x in inside && Adjacent(B, x, y)
        ensures y in inside
      {
        SightStep(x, y);
      }
      ConnectedStaysInside(B, inside, "3", "6");
    }
  }

  lemma ThreeRootsReportEachOther()
    ensures forall x, y :: x in {"4", "5", "6"} && y in {"4", "5", "6"} && x != y ==> Reports(ThreeRoots(), x, y)
  {
  }

  /** Three are too many, even when all are live to each other: the leaf "3" cannot see the leaves that
      join its roots behind its back. */
  lemma ThreeRootsCanLoop()
    ensures var infos := ThreeRoots();
            && Symmetric(infos) && Rooted(infos, {"4", "5", "6"})
            && (forall x, y :: x in {"4", "5", "6"} && y in {"4", "5", "6"} && x != y ==> Reports(infos, x, y))
            && !Acyclic(Chosen(PolledViews(infos)))
  {
    hide ThreeRoots, PolledViews, Chosen, Acyclic, NearLinks, Reported, Below, Connected, Symmetric, Rooted, Reports;
    ThreeRootsLinks();
    ThreeRootsDetour();
    ThreeRootsReportEachOther();
    OwnLinkIsInSight();
    DetourIsOutOfSight();
    PollingIsLoopFreeExactlyWhen(ThreeRoots());
    assert !DetoursAreNear(ThreeRoots(), "3", "6");
  }

  /** Two roots "3" and "4" that report no one, and two leaves that report both. */
  ghost function OneSided(): map<Addr, NodeInfo> {
    map ip | ip in {"1", "2", "3", "4"} :: Report(ip, OneSidedLive(ip))
  }

  ghost function OneSidedLive(ip: Addr): seq<Addr> {
    if ip in {"1", "2"} then ["3", "4"] else []
  }

  lemma OneSidedReports(x: Addr, y: Addr)
    ensures Reports(OneSided(), x, y) <==> x in {"1", "2"} && y in {"3", "4"}
  {
  }

  lemma OneSidedLinks()
    ensures Rooted(OneSided(), {"3", "4"}) && !Symmetric(OneSided()) && "2" in OneSided()
    ensures OneSided()["2"].livePeerIPs == ["3", "4"]
  {
    hide Reports;
    forall x, y | Reports(OneSided(), x, y)
      ensures x in {"3", "4"} || y in {"3", "4"}
    {
      OneSidedReports(x, y);
    }
    OneSidedReports("1", "3");
    OneSidedReports("3", "1");
    assert "3"[0] != "1"[0] && "3"[0] != "2"[0];
  }

  /** The way round: 2, 3, 1, 4. */
  lemma OneSidedDetour()
    ensures Connected(Below(Reported(OneSided()), Edge("2", "4")), "2", "4")
  {
    var B := Below(Reported(OneSided()), Edge("2", "4"));
    assert "2" == ['2'] && "4" == ['4'];
    OneSidedReports("2", "3");
    OneSidedReports("1", "3");
    OneSidedReports("1", "4");
    hide *;
    DetourStep(OneSided(), '2', '4', "2", "3");
    DetourStep(OneSided(), '2', '4', "1", "3");
    DetourStep(OneSided(), '2', '4', "1", "4");
    ConnectedTrans(B, "2", "3", "1");
    ConnectedTrans(B, "2", "1", "4");
  }

  lemma OneSidedNear(k: Addr, peer: Addr)
    requires "2" in OneSided() && k in Near(OneSided(), "2") && peer in OneSided()[k].livePeerIPs
    ensures k == "2" && peer in {"3", "4"}
  {
    OneSidedReports(k, peer);
  }

  /** All that "2" sees from itself, but for the link itself, is the one to "3". */
  lemma OneSidedStep(x: Addr, y: Addr)
    requires "2" in OneSided()
    requires x in {"2", "3"} && Adjacent(Below(NearLinks(OneSided(), "2"), Edge("2", "4")), x, y)
    ensures y in {"2", "3"}
  {
    hide OneSided, Near, Adjacent;
    var infos, B := OneSided(), Below(NearLinks(OneSided(), "2"), Edge("2", "4"));
    PolledViewAt(infos, "2");
    AdjacentIsReported(infos, B, x, y);
    var k, peer :| k in Near(infos, "2") && peer in infos[k].livePeerIPs && NewEdge(x, y) == NewEdge(k, peer);
    NewEdgeIsUndirected(x, y, k, peer);
    OneSidedNear(k, peer);
    NotItself(NearLinks(infos, "2"), Edge("2", "4"), NewEdge(x, y));
    assert "2" == ['2'] && "4" == ['4'];
    DigitsInOrder('2', '4', '2', '4');
  }

  lemma NotItself(E: set<Edge>, e: Edge, f: Edge)
    requires f in Below(E, e)
    ensures f != e
  {
    BeforeTotal(e, e);
  }

  lemma OneSidedSight()
    requires "2" in OneSided() && OneSided()["2"].livePeerIPs == ["3", "4"]
    ensures NewEdge("2", "4") == Edge("2", "4") && Edge("2", "4") in NearLinks(OneSided(), "2")
    ensures !Connected(Below(NearLinks(OneSided(), "2"), Edge("2", "4")), "2", "4")
  {
    hide OneSided, NearLinks, Near, Below, Connected, Adjacent;
    var B := Below(NearLinks(OneSided(), "2"), Edge("2", "4"));
    assert "2" == ['2'] && "4" == ['4'];
    DigitsInOrder('2', '4', '2', '4');
    SelfIsNear(OneSided(), "2");
    assert "4" in OneSided()["2"].livePeerIPs;
    NearLink(OneSided(), "2", "2", "4");
    var inside := iset{"2", "3"};
    if Connected(B, "2", "4") {
      forall x, y | x in inside && Adjacent(B, x, y)
        ensures y in inside
      {
        OneSidedStep(x, y);
      }
      ConnectedStaysInside(B, inside, "2", "4");
    }
  }

  /** Two are too many where links are reported from one end only: no leaf sees what the other reports. */
  lemma OneSidedRootsCanLoop()
    ensures Rooted(OneSided(), {"3", "4"}) && !Symmetric(OneSided())
    ensures !Acyclic(Chosen(PolledViews(OneSided())))
  {
    OneSidedLinks();
    OneSidedDetour();
    OneSidedSight();
    hide OneSided, PolledViews, Chosen, Acyclic, NearLinks, Reported, Below, Connected, Symmetric, Rooted;
    PollingIsLoopFreeExactlyWhen(OneSided());
    assert !DetoursAreNear(OneSided(), "2", "4");
  }
}
