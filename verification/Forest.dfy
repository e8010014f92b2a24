/** Acyclic edge sets and the components they leave. */
module Forest {
  import opened Graph

  /** Every edge is a bridge: without it, its ends fall apart. Self-loops are cycles. */
  ghost predicate Acyclic(F: set<Edge>) {
    forall e :: e in F ==> !Connected(F - {e}, e.a, e.b)
  }

  lemma AcyclicSubset(F: set<Edge>, G: set<Edge>)
    requires F <= G && Acyclic(G)
    ensures Acyclic(F)
  {
    forall e | e in F
      ensures !Connected(F - {e}, e.a, e.b)
    {
      if Connected(F - {e}, e.a, e.b) {
        ConnectedMono(F - {e}, G - {e}, e.a, e.b);
      }
    }
  }

  lemma AcyclicAdd(F: set<Edge>, e: Edge)
    requires Acyclic(F) && !Connected(F, e.a, e.b)
    ensures Acyclic(F + {e})
  {
    forall f | f in F + {e}
      ensures !Connected(F + {e} - {f}, f.a, f.b)
    {
      if f == e {
        assert F + {e} - {f} <= F;
        if Connected(F + {e} - {f}, f.a, f.b) {
          ConnectedMono(F + {e} - {f}, F, f.a, f.b);
        }
      } else if Connected(F + {e} - {f}, f.a, f.b) {
        assert F + {e} - {f} == F - {f} + {e};
        ConnectedAdd(F - {f}, e, f.a, f.b);
        CycleThroughNewEdge(F, f, e);
      }
    }
  }

  lemma CycleThroughNewEdge(F: set<Edge>, f: Edge, e: Edge)
    requires f in F && !Connected(F - {f}, f.a, f.b)
    requires Bridged(F - {f}, e, f.a, f.b)
    ensures Connected(F, e.a, e.b)
  {
    var near, far := e.a, e.b;
    if !(Connected(F - {f}, f.a, e.a) && Connected(F - {f}, e.b, f.b)) {
      near, far := e.b, e.a;
    }
    ConnectedMono(F - {f}, F, f.a, near);
    ConnectedMono(F - {f}, F, far, f.b);
    ConnectedStep(F, f.b, f.a);
    ConnectedTrans(F, far, f.b, f.a);
    ConnectedTrans(F, far, f.a, near);
    ConnectedSym(F, far, near);
  }

  ghost function ComponentOf(V: set<Addr>, E: set<Edge>, u: Addr): set<Addr> {
    set x | x in V && Connected(E, u, x)
  }

  ghost function Components(V: set<Addr>, E: set<Edge>): set<set<Addr>> {
    set u | u in V :: ComponentOf(V, E, u)
  }

  lemma ComponentSame(V: set<Addr>, E: set<Edge>, u: Addr, v: Addr)
    requires u in V && v in V
    ensures ComponentOf(V, E, u) == ComponentOf(V, E, v) <==> Connected(E, u, v)
  {
    ConnectedRefl(E, v);
    if Connected(E, u, v) {
      ConnectedSym(E, u, v);
      forall x
        ensures Connected(E, u, x) <==> Connected(E, v, x)
      {
        if Connected(E, u, x) { ConnectedTrans(E, v, u, x); }
        if Connected(E, v, x) { ConnectedTrans(E, u, v, x); }
      }
    } else {
      assert v in ComponentOf(V, E, v);
    }
  }

  /** Joining two components leaves every other one alone. */
  lemma ComponentAfterJoin(V: set<Addr>, E: set<Edge>, e: Edge, u: Addr)
    requires e.a in V && e.b in V && u in V
    ensures var joined := ComponentOf(V, E, e.a) + ComponentOf(V, E, e.b);
            ComponentOf(V, E + {e}, u) == if u in joined then joined else ComponentOf(V, E, u)
  {
    forall x
      ensures Connected(E + {e}, u, x) <==> Bridged(E, e, u, x)
    {
      ConnectedAdd(E, e, u, x);
    }
    forall x, y
      ensures Connected(E, x, y) <==> Connected(E, y, x)
    {
      if Connected(E, x, y) { ConnectedSym(E, x, y); }
      if Connected(E, y, x) { ConnectedSym(E, y, x); }
    }
    var joined := ComponentOf(V, E, e.a) + ComponentOf(V, E, e.b);
    if u in joined {
      var near := if u in ComponentOf(V, E, e.a) then e.a else e.b;
      forall x
        ensures Connected(E, u, x) <==> Connected(E, near, x)
      {
        if Connected(E, u, x) { ConnectedTrans(E, near, u, x); }
        if Connected(E, near, x) { ConnectedTrans(E, u, near, x); }
      }
    }
  }

  lemma JoinMergesTwo(V: set<Addr>, E: set<Edge>, e: Edge)
    requires e.a in V && e.b in V && !Connected(E, e.a, e.b)
    ensures |Components(V, E + {e})| == |Components(V, E)| - 1
  {
    var ca, cb := ComponentOf(V, E, e.a), ComponentOf(V, E, e.b);
    var before, after := Components(V, E), Components(V, E + {e});
    var rest := before - {ca, cb};
    ConnectedRefl(E, e.a);
    ConnectedRefl(E, e.b);
    ComponentSame(V, E, e.a, e.b);
    assert ca != cb && ca in before && cb in before;
    assert before == rest + {ca, cb};
    forall u | u in V
      ensures u in ca + cb <==> ComponentOf(V, E, u) in {ca, cb}
    {
      ComponentSame(V, E, e.a, u);
      ComponentSame(V, E, e.b, u);
    }
    forall c | c in after
      ensures c in rest + {ca + cb}
    {
      var u :| u in V && c == ComponentOf(V, E + {e}, u);
      ComponentAfterJoin(V, E, e, u);
    }
    forall c | c in rest + {ca + cb}
      ensures c in after
    {
      var u := if c in rest then (var w :| w in V && c == ComponentOf(V, E, w); w) else e.a;
      ComponentAfterJoin(V, E, e, u);
      assert c == ComponentOf(V, E + {e}, u);
    }
    assert after == rest + {ca + cb};
    assert ca + cb !in rest by {
      if ca + cb in rest {
        var w :| w in V && ca + cb == ComponentOf(V, E, w);
        assert e.a in ComponentOf(V, E, w);
        ComponentSame(V, E, w, e.a);
        assert false;
      }
    }
  }

  lemma ComponentsDependOnConnection(V: set<Addr>, E: set<Edge>, F: set<Edge>)
    requires forall u, v :: Connected(E, u, v) <==> Connected(F, u, v)
    ensures Components(V, E) == Components(V, F)
  {
    forall u
      ensures ComponentOf(V, E, u) == ComponentOf(V, F, u)
    {
    }
  }

  lemma {:induction false} SingletonCount(V: set<Addr>)
    ensures |set u | u in V :: {u}| == |V|
  {
    if V != {} {
      var v :| v in V;
      var W := V - {v};
      SingletonCount(W);
      assert (set u | u in V :: {u}) == (set u | u in W :: {u}) + {{v}};
      assert {v} !in (set u | u in W :: {u});
    }
  }

  lemma NoEdgesSingletons(V: set<Addr>)
    ensures |Components(V, {})| == |V|
  {
    forall u | u in V
      ensures ComponentOf(V, {}, u) == {u}
    {
      forall x
        ensures Connected({}, u, x) <==> x == u
      {
        ConnectedWithoutEdges(u, x);
      }
    }
    assert Components(V, {}) == set u | u in V :: {u};
    SingletonCount(V);
  }

  /** A forest has one edge less than nodes, in each component. */
  lemma {:induction false} ForestCount(V: set<Addr>, F: set<Edge>)
    requires Acyclic(F) && Endpoints(F) <= V
    ensures |F| + |Components(V, F)| == |V|
    decreases |F|
  {
    if F == {} {
      NoEdgesSingletons(V);
    } else {
      var e :| e in F;
      var G := F - {e};
      AcyclicSubset(G, F);
      assert e.a in Endpoints(F) && e.b in Endpoints(F);
      assert Endpoints(G) <= Endpoints(F);
      ForestCount(V, G);
      JoinMergesTwo(V, G, e);
      assert F == G + {e};
    }
  }

  /** More edges, fewer components. */
  lemma {:induction false} ComponentsAntitone(V: set<Addr>, E: set<Edge>, F: set<Edge>)
    requires E <= F && Endpoints(F) <= V
    ensures |Components(V, F)| <= |Components(V, E)|
    decreases |F - E|
  {
    if F - E == {} {
      assert E == F;
    } else {
      var e :| e in F - E;
      var G := F - {e};
      assert Endpoints(G) <= Endpoints(F);
      assert F - E == (G - E) + {e};
      ComponentsAntitone(V, E, G);
      assert F == G + {e};
      assert e.a in Endpoints(F) && e.b in Endpoints(F);
      if Connected(G, e.a, e.b) {
        AddConnectedEdge(G, e);
        ComponentsDependOnConnection(V, G, F);
      } else {
        JoinMergesTwo(V, G, e);
      }
    }
  }

  /** An edge between nodes already connected connects nothing new. */
  lemma AddConnectedEdge(E: set<Edge>, e: Edge)
    requires Connected(E, e.a, e.b)
    ensures forall u, v :: Connected(E + {e}, u, v) <==> Connected(E, u, v)
  {
    forall u, v
      ensures Connected(E + {e}, u, v) <==> Connected(E, u, v)
    {
      if Connected(E, u, v) {
        ConnectedMono(E, E + {e}, u, v);
      }
      if Connected(E + {e}, u, v) {
        forall f | f in E + {e}
          ensures Connected(E, f.a, f.b)
        {
          if f != e { ConnectedStep(E, f.a, f.b); }
        }
        ConnectedReplace(E + {e}, E, u, v);
      }
    }
  }
}
