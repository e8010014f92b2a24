/** What agents with different, partial views build together.

    `/info` returns only the sender's own record, so an agent knows its own report and those of the
    peers it reached: a part of the mesh that need not be the part another agent knows. */
module PartialViews {
  import opened Graph
  import opened Forest
  import opened SpanningTree
  import opened Stability
  import opened OverlayTopology

  /** A view of the snapshot `infos`: any sub-map holding the agent's own entry, clocks aside. */
  ghost predicate ViewOf(view: map<Addr, NodeInfo>, infos: map<Addr, NodeInfo>, me: Addr) {
    && me in view
    && forall k :: k in view ==> k in infos && view[k].livePeerIPs == infos[k].livePeerIPs
  }

  ghost predicate LocalViews(views: map<Addr, map<Addr, NodeInfo>>, infos: map<Addr, NodeInfo>) {
    && views.Keys == infos.Keys
    && forall me {:trigger ViewOf(views[me], infos, me)} :: me in views ==> ViewOf(views[me], infos, me)
  }

  /** The links at least one agent forwards on. */
  ghost function Chosen(views: map<Addr, map<Addr, NodeInfo>>): set<Edge> {
    set me, v | me in views && v in Picks(views[me], me) :: NewEdge(me, v)
  }

  lemma ViewReportsLess(view: map<Addr, NodeInfo>, infos: map<Addr, NodeInfo>, me: Addr)
    requires ViewOf(view, infos, me)
    ensures Reported(view) <= Reported(infos)
  {
  }

  /** An edge between two nodes is reported under one name only. */
  lemma AdjacentIsReported(nodes: map<Addr, NodeInfo>, T: set<Edge>, u: Addr, v: Addr)
    requires T <= Reported(nodes)
    ensures Adjacent(T, u, v) <==> NewEdge(u, v) in T
  {
    if Adjacent(T, u, v) {
      var e := if Edge(u, v) in T then Edge(u, v) else Edge(v, u);
      var x, y :| x in nodes && y in nodes[x].livePeerIPs && e == NewEdge(x, y);
      NewEdgeIsUndirected(x, y, u, v);
    }
  }

  lemma PickedIsInTree(view: map<Addr, NodeInfo>, me: Addr, v: Addr)
    ensures v in Picks(view, me) <==> NewEdge(me, v) in TreeOf(Reported(view))
  {
    AdjacentIsNeighbor(me, v, TreeOf(Reported(view)));
    AdjacentIsReported(view, TreeOf(Reported(view)), me, v);
  }

  lemma PickedIsChosen(views: map<Addr, map<Addr, NodeInfo>>, me: Addr, v: Addr)
    requires me in views
    ensures v in Picks(views[me], me) <==> NewEdge(me, v) in TreeOf(Reported(views[me]))
    ensures NewEdge(me, v) in TreeOf(Reported(views[me])) ==> NewEdge(me, v) in Chosen(views)
  {
    PickedIsInTree(views[me], me, v);
  }

  /** Whoever reports a link of the global tree keeps it, however little else it sees. */
  lemma ReporterKeepsTreeEdge(view: map<Addr, NodeInfo>, infos: map<Addr, NodeInfo>, me: Addr, v: Addr)
    requires ViewOf(view, infos, me)
    requires Reports(infos, me, v) && NewEdge(me, v) in TreeOf(Reported(infos))
    ensures v in Picks(view, me)
  {
    assert v in view[me].livePeerIPs && NewEdge(me, v) in Reported(view);
    ViewReportsLess(view, infos, me);
    TreeAntitone(Reported(view), Reported(infos));
    PickedIsInTree(view, me, v);
  }

  /** Every edge of the global tree is kept by an endpoint, and nothing unreported is. */
  lemma GlobalTreeIsChosen(views: map<Addr, map<Addr, NodeInfo>>, infos: map<Addr, NodeInfo>)
    requires LocalViews(views, infos)
    ensures TreeOf(Reported(infos)) <= Chosen(views) <= Reported(infos)
  {
    forall e | e in TreeOf(Reported(infos))
      ensures e in Chosen(views)
    {
      var ip, peer :| ip in infos && peer in infos[ip].livePeerIPs && e == NewEdge(ip, peer);
      ReporterKeepsTreeEdge(views[ip], infos, ip, peer);
    }
    forall e | e in Chosen(views)
      ensures e in Reported(infos)
    {
      var me, v :| me in views && v in Picks(views[me], me) && e == NewEdge(me, v);
      PickedIsChosen(views, me, v);
      ViewReportsLess(views[me], infos, me);
    }
  }

  /** Partial views never disconnect the mesh: the links kept connect what the live links connect. */
  lemma PartialViewsKeepTheMeshConnected(views: map<Addr, map<Addr, NodeInfo>>, infos: map<Addr, NodeInfo>)
    requires LocalViews(views, infos)
    ensures Spans(Chosen(views), Reported(infos))
  {
    var G, C := Reported(infos), Chosen(views);
    GlobalTreeIsChosen(views, infos);
    TreeIsSpanningForest(G);
    forall u, v
      ensures Connected(C, u, v) <==> Connected(G, u, v)
    {
      if Connected(C, u, v) { ConnectedMono(C, G, u, v); }
      if Connected(G, u, v) { ConnectedMono(TreeOf(G), C, u, v); }
    }
  }

  /** Every agent that sees one of its own links outside the global tree sees a detour of smaller links. */
  ghost predicate SeesDetours(views: map<Addr, map<Addr, NodeInfo>>, infos: map<Addr, NodeInfo>) {
    forall me, v :: me in views ==> SeesDetour(views, infos, me, v)
  }

  ghost predicate SeesDetour(views: map<Addr, map<Addr, NodeInfo>>, infos: map<Addr, NodeInfo>, me: Addr, v: Addr)
    requires me in views
  {
    NewEdge(me, v) in Reported(views[me]) - TreeOf(Reported(infos)) ==>
      Connected(Below(Reported(views[me]), NewEdge(me, v)), me, v)
  }

  /** Partial views do not always agree on a tree. They do exactly when every agent sees its detours;
      any other choice of links has a cycle. */
  lemma LoopFreeExactlyWhen(views: map<Addr, map<Addr, NodeInfo>>, infos: map<Addr, NodeInfo>)
    requires LocalViews(views, infos)
    ensures Acyclic(Chosen(views)) <==> SeesDetours(views, infos)
    ensures Acyclic(Chosen(views)) <==> Chosen(views) == TreeOf(Reported(infos))
  {
    hide Chosen, SeesDetours, TreeOf, Reported;
    GlobalTreeIsChosen(views, infos);
    TreeIsSpanningForest(Reported(infos));
    if Acyclic(Chosen(views)) {
      AcyclicChoiceIsTheTree(Reported(infos), Chosen(views));
    }
    if Chosen(views) == TreeOf(Reported(infos)) {
      TreeChoiceSeesDetours(views, infos);
    }
    if SeesDetours(views, infos) {
      DetoursGiveTheTree(views, infos);
    }
  }

  lemma AcyclicChoiceIsTheTree(G: set<Edge>, C: set<Edge>)
    requires TreeOf(G) <= C <= G && Acyclic(C)
    ensures C == TreeOf(G)
  {
    var T := TreeOf(G);
    TreeIsSpanningForest(G);
    forall e | e in C
      ensures e in T
    {
      if e !in T {
        ConnectedStep(G, e.a, e.b);
        ConnectedMono(T, C - {e}, e.a, e.b);
      }
    }
  }

  lemma TreeChoiceSeesDetours(views: map<Addr, map<Addr, NodeInfo>>, infos: map<Addr, NodeInfo>)
    requires LocalViews(views, infos) && Chosen(views) == TreeOf(Reported(infos))
    ensures SeesDetours(views, infos)
  {
    forall me, v | me in views && NewEdge(me, v) in Reported(views[me]) - TreeOf(Reported(infos))
      ensures Connected(Below(Reported(views[me]), NewEdge(me, v)), me, v)
    {
      PickedIsChosen(views, me, v);
      EndsOfNewEdge(Below(Reported(views[me]), NewEdge(me, v)), me, v);
    }
  }

  lemma DetoursGiveTheTree(views: map<Addr, map<Addr, NodeInfo>>, infos: map<Addr, NodeInfo>)
    requires LocalViews(views, infos) && SeesDetours(views, infos)
    ensures Chosen(views) <= TreeOf(Reported(infos))
  {
    forall e | e in Chosen(views)
      ensures e in TreeOf(Reported(infos))
    {
      var me, v :| me in views && v in Picks(views[me], me) && e == NewEdge(me, v);
      PickedIsChosen(views, me, v);
      EndsOfNewEdge(Below(Reported(views[me]), e), me, v);
      assert SeesDetour(views, infos, me, v);
    }
  }

  lemma EndsOfNewEdge(E: set<Edge>, u: Addr, v: Addr)
    ensures Connected(E, NewEdge(u, v).a, NewEdge(u, v).b) <==> Connected(E, u, v)
  {
    if Connected(E, u, v) { ConnectedSym(E, u, v); }
    if Connected(E, v, u) { ConnectedSym(E, v, u); }
  }

  /** Agents that know every live link build the tree together, each its own part of it. */
  lemma EqualEdgesAgree(views: map<Addr, map<Addr, NodeInfo>>, infos: map<Addr, NodeInfo>)
    requires LocalViews(views, infos)
    requires forall me :: me in views ==> Reported(views[me]) == Reported(infos)
    ensures Acyclic(Chosen(views)) && Chosen(views) == TreeOf(Reported(infos))
  {
    var G := Reported(infos);
    forall me, v | me in views && NewEdge(me, v) in Reported(views[me]) - TreeOf(G)
      ensures Connected(Below(Reported(views[me]), NewEdge(me, v)), me, v)
    {
      EndsOfNewEdge(Below(G, NewEdge(me, v)), me, v);
    }
    LoopFreeExactlyWhen(views, infos);
  }

  /** A node and its live peers: whom it can hear from. */
  ghost function Near(infos: map<Addr, NodeInfo>, u: Addr): set<Addr>
    requires u in infos
  {
    set k | k in infos && (k == u || k in infos[u].livePeerIPs)
  }

  lemma SelfIsNear(infos: map<Addr, NodeInfo>, u: Addr)
    requires u in infos
    ensures u in Near(infos, u)
  {
  }

  /** What polling yields on the snapshot `infos`: at every node its own record and its live peers'. */
  ghost function PolledViews(infos: map<Addr, NodeInfo>): map<Addr, map<Addr, NodeInfo>> {
    map u | u in infos :: map k | k in Near(infos, u) :: infos[k]
  }

  /** The links that `u` or one of its live peers reports. */
  ghost function NearLinks(infos: map<Addr, NodeInfo>, u: Addr): set<Edge>
    requires u in infos
  {
    set k, peer | k in Near(infos, u) && peer in infos[k].livePeerIPs :: NewEdge(k, peer)
  }

  /** Where smaller links anywhere in the mesh join the ends of a node's own link, smaller links near
      that node join them too. */
  ghost predicate DetoursAreNear(infos: map<Addr, NodeInfo>, u: Addr, v: Addr)
    requires u in infos
  {
    var e := NewEdge(u, v);
    e in NearLinks(infos, u) && Connected(Below(Reported(infos), e), u, v) ==>
      Connected(Below(NearLinks(infos, u), e), u, v)
  }

  lemma PolledViewAt(infos: map<Addr, NodeInfo>, u: Addr)
    requires u in infos
    ensures u in PolledViews(infos) && ViewOf(PolledViews(infos)[u], infos, u)
    ensures Reported(PolledViews(infos)[u]) == NearLinks(infos, u)
    ensures NearLinks(infos, u) <= Reported(infos)
  {
  }

  lemma PolledViewsAreLocal(infos: map<Addr, NodeInfo>)
    ensures LocalViews(PolledViews(infos), infos)
  {
  }

  /** Whether polling gives the agents a common tree, from the live links alone: exactly when around
      every node no detour leads out of its sight. */
  lemma PollingIsLoopFreeExactlyWhen(infos: map<Addr, NodeInfo>)
    ensures Acyclic(Chosen(PolledViews(infos))) <==> forall u, v :: u in infos ==> DetoursAreNear(infos, u, v)
    ensures Acyclic(Chosen(PolledViews(infos))) <==> Chosen(PolledViews(infos)) == TreeOf(Reported(infos))
  {
    hide Chosen, TreeOf, Reported, NearLinks, PolledViews, Acyclic, Below;
    var views := PolledViews(infos);
    PolledViewsAreLocal(infos);
    LoopFreeExactlyWhen(views, infos);
    forall u, v | u in infos
      ensures u in views && (DetoursAreNear(infos, u, v) <==> SeesDetour(views, infos, u, v))
    {
      PolledViewAt(infos, u);
      DetourIsOutsideTheTree(Reported(infos), u, v);
    }
    assert views.Keys == infos.Keys;
  }

  lemma DetourIsOutsideTheTree(E: set<Edge>, u: Addr, v: Addr)
    ensures NewEdge(u, v) in E ==> (NewEdge(u, v) in TreeOf(E) <==> !Connected(Below(E, NewEdge(u, v)), u, v))
  {
    EndsOfNewEdge(Below(E, NewEdge(u, v)), u, v);
  }

  /** Every node has every other as a live peer: one common tree. */
  lemma FullMeshIsLoopFree(infos: map<Addr, NodeInfo>)
    requires forall u, k :: u in infos && k in infos && k != u ==> Reports(infos, u, k)
    ensures Acyclic(Chosen(PolledViews(infos))) && Chosen(PolledViews(infos)) == TreeOf(Reported(infos))
  {
    var views := PolledViews(infos);
    PolledViewsAreLocal(infos);
    forall u | u in infos
      ensures views[u] == infos
    {
      forall k | k in infos && k != u
        ensures k in infos[u].livePeerIPs
      {
        assert Reports(infos, u, k);
      }
    }
    EqualEdgesAgree(views, infos);
  }
}
