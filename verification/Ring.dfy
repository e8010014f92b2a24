/** Where the agents' trees fail to agree: rings.

    A node hears from itself and its two neighbours at most. In a ring of five nodes or more that shows
    it a path of four links or less, with no cycle in it, so no node drops a link and the whole ring
    stays in use. */
module Ring {
  import opened Graph
  import opened Forest
  import opened SpanningTree
  import opened OverlayTopology
  import opened PartialViews

  ghost predicate IsRing(ring: seq<Addr>) {
    |ring| >= 5 && forall i, j :: 0 <= i < j < |ring| ==> ring[i] != ring[j]
  }

  ghost function Next(ring: seq<Addr>, i: nat): nat
    requires i < |ring|
  {
    if i + 1 == |ring| then 0 else i + 1
  }

  ghost function Prev(ring: seq<Addr>, i: nat): nat
    requires i < |ring|
  {
    if i == 0 then |ring| - 1 else i - 1
  }

  ghost function Place(ring: seq<Addr>, ip: Addr): nat
    requires ip in ring
    ensures Place(ring, ip) < |ring| && ring[Place(ring, ip)] == ip
  {
    var i :| 0 <= i < |ring| && ring[i] == ip;
    i
  }

  ghost function Sides(ring: seq<Addr>, i: nat): seq<Addr>
    requires i < |ring|
  {
    [ring[Prev(ring, i)], ring[Next(ring, i)]]
  }

  /** Every node reports the nodes on its two sides live. */
  ghost function RingInfos(ring: seq<Addr>): map<Addr, NodeInfo>
    requires IsRing(ring)
  {
    map ip | ip in ring ::
      var sides := Sides(ring, Place(ring, ip));
      NodeInfo("", ip, sides, sides, 0)
  }

  ghost function RingLinks(ring: seq<Addr>): set<Edge> {
    set i | 0 <= i < |ring| :: NewEdge(ring[i], ring[Next(ring, i)])
  }

  lemma InfoAt(ring: seq<Addr>, i: nat)
    requires IsRing(ring) && i < |ring|
    ensures Place(ring, ring[i]) == i && ring[i] in RingInfos(ring)
    ensures RingInfos(ring)[ring[i]] == NodeInfo("", ring[i], Sides(ring, i), Sides(ring, i), 0)
  {
  }

  ghost predicate Distinct(a: Addr, b: Addr, c: Addr, d: Addr, f: Addr) {
    a != b && a != c && a != d && a != f && b != c && b != d && b != f && c != d && c != f && d != f
  }

  ghost function PathOf(a: Addr, b: Addr, c: Addr, d: Addr, f: Addr): set<Edge> {
    {NewEdge(a, b), NewEdge(b, c), NewEdge(c, d), NewEdge(d, f)}
  }

  lemma NewEdgeIsEither(x: Addr, y: Addr)
    ensures NewEdge(x, y) == Edge(x, y) || NewEdge(x, y) == Edge(y, x)
  {
  }

  /** On a path of five nodes no link has a detour. */
  lemma MiddleOfPath(a: Addr, b: Addr, c: Addr, d: Addr, f: Addr)
    requires Distinct(a, b, c, d, f)
    ensures NewEdge(c, d) in TreeOf(PathOf(a, b, c, d, f))
  {
    hide NewEdge;
    var R, e := PathOf(a, b, c, d, f), NewEdge(c, d);
    var inside := iset{a, b, c};
    NewEdgeIsEither(a, b);
    NewEdgeIsEither(b, c);
    NewEdgeIsEither(d, f);
    NewEdgeIsUndirected(a, b, c, d);
    NewEdgeIsUndirected(b, c, c, d);
    NewEdgeIsUndirected(d, f, c, d);
    forall x, y | x in inside && Adjacent(R - {e}, x, y)
      ensures y in inside
    {
    }
    if Connected(Below(R, e), e.a, e.b) {
      BeforeTotal(e, e);
      ConnectedMono(Below(R, e), R - {e}, e.a, e.b);
      EndsOfNewEdge(R - {e}, c, d);
      ConnectedStaysInside(R - {e}, inside, c, d);
    }
  }

  lemma PathBackwards(a: Addr, b: Addr, c: Addr, d: Addr, f: Addr)
    ensures PathOf(a, b, c, d, f) == PathOf(f, d, c, b, a)
  {
    hide NewEdge;
    NewEdgeIsUndirected(a, b, b, a);
    NewEdgeIsUndirected(b, c, c, b);
    NewEdgeIsUndirected(c, d, d, c);
    NewEdgeIsUndirected(d, f, f, d);
  }

  lemma Places(ring: seq<Addr>, i: nat)
    requires IsRing(ring) && i < |ring|
    ensures var p, n := Prev(ring, i), Next(ring, i);
            && Next(ring, p) == i && Prev(ring, n) == i
            && Distinct(ring[Prev(ring, p)], ring[p], ring[i], ring[n], ring[Next(ring, n)])
  {
  }

  lemma SidesAreNear(ring: seq<Addr>, i: nat)
    requires IsRing(ring) && i < |ring|
    ensures ring[i] in RingInfos(ring)
    ensures Near(RingInfos(ring), ring[i]) == {ring[Prev(ring, i)], ring[i], ring[Next(ring, i)]}
  {
    InfoAt(ring, i);
    InfoAt(ring, Prev(ring, i));
    InfoAt(ring, Next(ring, i));
    hide IsRing, RingInfos;
  }

  /** Live at both ends: the links reported are the links of the ring. */
  lemma RingReports(ring: seq<Addr>)
    requires IsRing(ring)
    ensures Reported(RingInfos(ring)) == RingLinks(ring)
  {
    hide NewEdge, IsRing;
    var infos := RingInfos(ring);
    forall e | e in Reported(infos)
      ensures e in RingLinks(ring)
    {
      var ip, peer :| ip in infos && peer in infos[ip].livePeerIPs && e == NewEdge(ip, peer);
      var i := Place(ring, ip);
      Places(ring, i);
      NewEdgeIsUndirected(ip, peer, peer, ip);
      assert e == NewEdge(ring[i], ring[Next(ring, i)]) || e == NewEdge(ring[Prev(ring, i)], ring[i]);
    }
    forall e | e in RingLinks(ring)
      ensures e in Reported(infos)
    {
      var i :| 0 <= i < |ring| && e == NewEdge(ring[i], ring[Next(ring, i)]);
      InfoAt(ring, i);
      assert ring[Next(ring, i)] in infos[ring[i]].livePeerIPs;
    }
  }

  /** The links at most two steps away from the node at place `i`. */
  ghost function Around(ring: seq<Addr>, i: nat): set<Edge>
    requires i < |ring|
  {
    var p, n := Prev(ring, i), Next(ring, i);
    PathOf(ring[Prev(ring, p)], ring[p], ring[i], ring[n], ring[Next(ring, n)])
  }

  /** What the node at place `i` can see: its own links, and no more than the two on each side. */
  lemma ViewIsOnAPath(ring: seq<Addr>, view: map<Addr, NodeInfo>, i: nat)
    requires IsRing(ring) && i < |ring| && ring[i] in RingInfos(ring)
    requires ViewOf(view, RingInfos(ring), ring[i]) && view.Keys <= Near(RingInfos(ring), ring[i])
    ensures Reported(view) <= Around(ring, i)
    ensures NewEdge(ring[i], ring[Prev(ring, i)]) in Reported(view)
    ensures NewEdge(ring[i], ring[Next(ring, i)]) in Reported(view)
  {
    var p, n := Prev(ring, i), Next(ring, i);
    Places(ring, i);
    InfoAt(ring, p);
    InfoAt(ring, i);
    InfoAt(ring, n);
    SidesAreNear(ring, i);
    hide NewEdge, IsRing, RingInfos, Near, Reported, PathOf, Distinct;
    ReportsOnAPath(view, ring[Prev(ring, p)], ring[p], ring[i], ring[n], ring[Next(ring, n)]);
  }

  /** The middle one of three neighbouring reports shows two links, the others at most one more each. */
  lemma ReportsOnAPath(view: map<Addr, NodeInfo>, a: Addr, b: Addr, c: Addr, d: Addr, f: Addr)
    requires c in view && view.Keys <= {b, c, d} && view[c].livePeerIPs == [b, d]
    requires (b in view ==> view[b].livePeerIPs == [a, c]) && (d in view ==> view[d].livePeerIPs == [c, f])
    ensures Reported(view) <= PathOf(a, b, c, d, f)
    ensures NewEdge(c, b) in Reported(view) && NewEdge(c, d) in Reported(view)
  {
    hide NewEdge;
    NewEdgeIsUndirected(b, a, a, b);
    NewEdgeIsUndirected(b, c, c, b);
    NewEdgeIsUndirected(c, d, d, c);
    forall e | e in Reported(view)
      ensures e in PathOf(a, b, c, d, f)
    {
      var ip, peer :| ip in view && peer in view[ip].livePeerIPs && e == NewEdge(ip, peer);
    }
    assert b in view[c].livePeerIPs && d in view[c].livePeerIPs;
  }

  /** Such a view shows no detour around an own link: the node keeps both. */
  lemma OwnLinksAreKept(ring: seq<Addr>, view: map<Addr, NodeInfo>, i: nat)
    requires IsRing(ring) && i < |ring| && ring[i] in RingInfos(ring)
    requires ViewOf(view, RingInfos(ring), ring[i]) && view.Keys <= Near(RingInfos(ring), ring[i])
    ensures NewEdge(ring[i], ring[Prev(ring, i)]) in TreeOf(Reported(view))
    ensures NewEdge(ring[i], ring[Next(ring, i)]) in TreeOf(Reported(view))
  {
    hide Reported, PathOf, NewEdge, TreeOf, IsRing, RingInfos, ViewOf, Near;
    var p, n := Prev(ring, i), Next(ring, i);
    var pp, nn := Prev(ring, p), Next(ring, n);
    Places(ring, i);
    ViewIsOnAPath(ring, view, i);
    MiddleOfPath(ring[pp], ring[p], ring[i], ring[n], ring[nn]);
    MiddleOfPath(ring[nn], ring[n], ring[i], ring[p], ring[pp]);
    PathBackwards(ring[pp], ring[p], ring[i], ring[n], ring[nn]);
    TreeAntitone(Reported(view), Around(ring, i));
  }

  /** No node hears from further than its neighbours. */
  ghost predicate NearViews(views: map<Addr, map<Addr, NodeInfo>>, infos: map<Addr, NodeInfo>) {
    LocalViews(views, infos) &&
    forall me {:trigger Near(infos, me)} :: me in views && me in infos ==> views[me].Keys <= Near(infos, me)
  }

  lemma AllLinksAreChosen(ring: seq<Addr>, views: map<Addr, map<Addr, NodeInfo>>)
    requires IsRing(ring) && NearViews(views, RingInfos(ring))
    ensures Chosen(views) == RingLinks(ring)
  {
    hide Chosen, Reported, NewEdge, TreeOf, IsRing, ViewOf, Near;
    RingReports(ring);
    GlobalTreeIsChosen(views, RingInfos(ring));
    forall i | 0 <= i < |ring|
      ensures NewEdge(ring[i], ring[Next(ring, i)]) in Chosen(views)
    {
      InfoAt(ring, i);
      assert ViewOf(views[ring[i]], RingInfos(ring), ring[i]);
      assert views[ring[i]].Keys <= Near(RingInfos(ring), ring[i]);
      hide RingInfos, LocalViews, NearViews;
      OwnLinksAreKept(ring, views[ring[i]], i);
      PickedIsChosen(views, ring[i], ring[Next(ring, i)]);
    }
  }

  lemma {:induction false} AroundTheRing(ring: seq<Addr>, C: set<Edge>, j: nat)
    requires IsRing(ring) && j < |ring|
    requires forall i :: 0 <= i < j ==> NewEdge(ring[i], ring[Next(ring, i)]) in C
    ensures Connected(C, ring[0], ring[j])
  {
    if j == 0 {
      ConnectedRefl(C, ring[0]);
    } else {
      AroundTheRing(ring, C, j - 1);
      assert NewEdge(ring[j - 1], ring[Next(ring, j - 1)]) in C;
      ConnectedStep(C, ring[j - 1], ring[j]);
      ConnectedTrans(C, ring[0], ring[j - 1], ring[j]);
    }
  }

  lemma RingIsACycle(ring: seq<Addr>)
    requires IsRing(ring)
    ensures !Acyclic(RingLinks(ring))
  {
    hide NewEdge, Connected;
    var C, last := RingLinks(ring), |ring| - 1;
    var e := NewEdge(ring[last], ring[0]);
    assert e == NewEdge(ring[last], ring[Next(ring, last)]);
    forall i | 0 <= i < last
      ensures NewEdge(ring[i], ring[Next(ring, i)]) in C - {e}
    {
      NewEdgeIsUndirected(ring[i], ring[i + 1], ring[last], ring[0]);
    }
    AroundTheRing(ring, C - {e}, last);
    NewEdgeIsUndirected(ring[0], ring[last], ring[last], ring[0]);
    EndsOfNewEdge(C - {e}, ring[0], ring[last]);
  }

  /** An own link the node at place `i` sees is one of the two at its sides. */
  lemma NoDetourInSight(ring: seq<Addr>, view: map<Addr, NodeInfo>, i: nat, v: Addr)
    requires IsRing(ring) && i < |ring| && ring[i] in RingInfos(ring)
    requires ViewOf(view, RingInfos(ring), ring[i]) && view.Keys <= Near(RingInfos(ring), ring[i])
    requires NewEdge(ring[i], v) in Reported(view)
    ensures !Connected(Below(Reported(view), NewEdge(ring[i], v)), ring[i], v)
  {
    hide Reported, NewEdge, TreeOf, IsRing, RingInfos, ViewOf, Near, Connected, Below;
    var p, n := Prev(ring, i), Next(ring, i);
    ViewIsOnAPath(ring, view, i);
    OwnLinksAreKept(ring, view, i);
    Places(ring, i);
    NewEdgeIsUndirected(ring[Prev(ring, p)], ring[p], ring[i], v);
    NewEdgeIsUndirected(ring[p], ring[i], ring[i], v);
    NewEdgeIsUndirected(ring[i], ring[n], ring[i], v);
    NewEdgeIsUndirected(ring[n], ring[Next(ring, n)], ring[i], v);
    assert v == ring[p] || v == ring[n];
    DetourIsOutsideTheTree(Reported(view), ring[i], v);
  }

  /** In every ring, whatever polls failed, each agent follows its own view, no agent sees a detour
      around any link of its own, and the links they keep are the whole ring. */
  lemma RingsStayLoops(ring: seq<Addr>, views: map<Addr, map<Addr, NodeInfo>>)
    requires IsRing(ring) && NearViews(views, RingInfos(ring))
    ensures Chosen(views) == RingLinks(ring) == Reported(RingInfos(ring)) && !Acyclic(Chosen(views))
    ensures !SeesDetours(views, RingInfos(ring))
    ensures forall me, v :: me in views && NewEdge(me, v) in Reported(views[me]) ==>
              !Connected(Below(Reported(views[me]), NewEdge(me, v)), me, v)
  {
    hide Reported, NewEdge, TreeOf, Chosen, SeesDetours, Connected, Near, ViewOf, Below, RingLinks, Acyclic, IsRing;
    var infos := RingInfos(ring);
    RingReports(ring);
    RingIsACycle(ring);
    AllLinksAreChosen(ring, views);
    LoopFreeExactlyWhen(views, infos);
    forall me, v | me in views && NewEdge(me, v) in Reported(views[me])
      ensures !Connected(Below(Reported(views[me]), NewEdge(me, v)), me, v)
    {
      assert ViewOf(views[me], infos, me);
      assert views[me].Keys <= Near(infos, me);
      NoDetourInSight(ring, views[me], Place(ring, me), v);
    }
  }

  /** The smallest such mesh, after a round in which every poll is answered. */
  lemma FiveNodesLoop()
    ensures var ring := ["10.0.0.1", "10.0.0.2", "10.0.0.3", "10.0.0.4", "10.0.0.5"];
            IsRing(ring) && !Acyclic(Chosen(PolledViews(RingInfos(ring))))
  {
    var ring := ["10.0.0.1", "10.0.0.2", "10.0.0.3", "10.0.0.4", "10.0.0.5"];
    forall i, j | 0 <= i < j < |ring|
      ensures ring[i] != ring[j]
    {
      assert ring[i][7] != ring[j][7];
    }
    hide Chosen, RingInfos, Acyclic;
    PolledViewsAreLocal(RingInfos(ring));
    RingsStayLoops(ring, PolledViews(RingInfos(ring)));
  }
}
