/** What the order of addresses decides: which links the tree takes. */
module TreeOrder {
  import opened Prelude
  import opened Order
  import opened Graph
  import opened SpanningTree
  import opened Stability
  import opened OverlayTopology

  /** Edges are compared at the first difference of their lower ends, and of their upper ends where those are
      the same. */
  lemma BeforeAtFirstDifference(e: Edge, f: Edge)
    ensures Before(e, f) <==>
            || e.a < f.a || (exists k :: DiffersAt(e.a, f.a, k))
            || (e.a == f.a && (e.b < f.b || exists k :: DiffersAt(e.b, f.b, k)))
  {
    LessAtFirstDifference(e.a, f.a);
    LessAtFirstDifference(e.b, f.b);
    LessTotal(e.a, f.a);
  }

  /** A reported link goes from its lower end to its higher one. */
  lemma LowerEndFirst(nodes: map<Addr, NodeInfo>, e: Edge)
    requires e in Reported(nodes)
    ensures e.a == e.b || Less(e.a, e.b)
  {
    var x, y :| x in nodes && y in nodes[x].livePeerIPs && e == NewEdge(x, y);
    LessTotal(x, y);
  }

  /** The links with a lower end before `x`. */
  ghost function LowerThan(E: set<Edge>, x: Addr): set<Edge> {
    set f | f in E && Less(f.a, x)
  }

  /** Lower ends come first: a link whose ends are joined by links of smaller lower ends is left out. */
  lemma JoinedLowerIsOut(E: set<Edge>, e: Edge)
    requires Connected(LowerThan(E, e.a), e.a, e.b)
    ensures e !in TreeOf(E)
  {
    LessTotal(e.a, e.a);
    ConnectedMono(LowerThan(E, e.a), Below(E, e), e.a, e.b);
  }

  ghost predicate IsLeast(E: set<Edge>, least: Addr) {
    forall x :: x in Endpoints(E) && x != least ==> Less(least, x)
  }

  /** Every link at the least address is in the tree. */
  lemma LeastKeepsItsLinks(nodes: map<Addr, NodeInfo>, least: Addr, e: Edge)
    requires IsLeast(Reported(nodes), least)
    requires e in Reported(nodes) && e.a != e.b && (e.a == least || e.b == least)
    ensures e in TreeOf(Reported(nodes)) && e.a == least
  {
    var E := Reported(nodes);
    LowerEndFirst(nodes, e);
    assert e.a in Endpoints(E) && e.b in Endpoints(E);
    if e.a != least { LessAsymmetric(least, e.a); }
    forall f | f in Below(E, e)
      ensures f.a == least && f.b != e.b
    {
      assert f.a in Endpoints(E);
      if f.a != least { LessAsymmetric(f.a, least); }
      LessTotal(e.b, e.b);
    }
    assert e.b !in Endpoints(Below(E, e));
    if Connected(Below(E, e), e.a, e.b) {
      ConnectedEndpoint(Below(E, e), e.a, e.b);
    }
  }

  lemma LessAsymmetric(x: string, y: string)
    ensures !(Less(x, y) && Less(y, x))
  {
    LessTotal(x, x);
    if Less(x, y) && Less(y, x) { LessTransitive(x, y, x); }
  }

  /** Each of the nodes is live to each other, at one end at least, and no other link is reported. */
  ghost predicate AllToAll(nodes: map<Addr, NodeInfo>, V: set<Addr>) {
    && (forall x, y :: x in V && y in V && x != y ==> NewEdge(x, y) in Reported(nodes))
    && Endpoints(Reported(nodes)) <= V
  }

  /** Where all are live to all, the tree is the star around the least address. */
  lemma FullMeshIsAStar(nodes: map<Addr, NodeInfo>, V: set<Addr>, least: Addr)
    requires AllToAll(nodes, V) && least in V && forall x :: x in V && x != least ==> Less(least, x)
    ensures Picks(nodes, least) == V - {least}
    ensures forall v :: v in V && v != least ==> Picks(nodes, v) == {least}
  {
    var E, T := Reported(nodes), TreeOf(Reported(nodes));
    forall v | v in V && v != least
      ensures Edge(least, v) in T
    {
      assert NewEdge(least, v) == Edge(least, v);
      LeastKeepsItsLinks(nodes, least, Edge(least, v));
    }
    forall e | e in T
      ensures e.a == least && e.b in V && e.b != least
    {
      assert e.a in Endpoints(E) && e.b in Endpoints(E);
      ConnectedRefl(Below(E, e), e.a);
      LowerEndFirst(nodes, e);
      if e.a != least {
        if e.b == least { LessAsymmetric(least, e.a); }
        var F := LowerThan(E, e.a);
        assert Edge(least, e.a) in F && Edge(least, e.b) in F;
        ConnectedStep(F, e.a, least);
        ConnectedStep(F, least, e.b);
        ConnectedTrans(F, e.a, least, e.b);
        JoinedLowerIsOut(E, e);
      }
    }
    forall u, v
      ensures v in Neighbors(u, T) <==> (u == least && v in V && v != least) || (v == least && u in V && u != least)
    {
      AdjacentIsNeighbor(u, v, T);
    }
  }

  lemma StarOfThree(nodes: map<Addr, NodeInfo>, least: Addr, x: Addr, y: Addr)
    requires AllToAll(nodes, {least, x, y}) && Less(least, x) && Less(least, y) && x != y
    ensures Picks(nodes, x) == Picks(nodes, y) == {least} && Picks(nodes, least) == {x, y}
  {
    LessTotal(least, least);
    hide Less, AllToAll, Picks;
    FullMeshIsAStar(nodes, {least, x, y}, least);
    assert {least, x, y} - {least} == {x, y};
  }

  /** Three nodes with addresses of different lengths, each live to the others: all hang on "100.64.0.10". */
  lemma LongAddressComesFirst(nodes: map<Addr, NodeInfo>)
    requires AllToAll(nodes, {"100.64.0.10", "100.64.0.2", "100.64.0.3"})
    ensures Picks(nodes, "100.64.0.2") == Picks(nodes, "100.64.0.3") == {"100.64.0.10"}
    ensures Picks(nodes, "100.64.0.10") == {"100.64.0.2", "100.64.0.3"}
  {
    var x, y, z := "100.64.0.10", "100.64.0.2", "100.64.0.3";
    hide Less, AllToAll, Picks;
    LessAtFirstDifference(x, y);
    LessAtFirstDifference(x, z);
    assert DiffersAt(x, y, 9) && DiffersAt(x, z, 9);
    assert y[9] != z[9];
    StarOfThree(nodes, x, y, z);
  }
}
