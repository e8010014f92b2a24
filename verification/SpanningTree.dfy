/** The spanning forest an edge set determines: what every agent is meant to agree on. */
module SpanningTree {
  import opened Graph
  import opened Forest

  /** The edges of `E` strictly smaller than `e` in the (A, B) order. */
  ghost function Below(E: set<Edge>, e: Edge): set<Edge> {
    set f | f in E && Before(f, e)
  }

  /** The edges whose ends no smaller edges connect. No order of arrival, no list of nodes. */
  ghost function TreeOf(E: set<Edge>): set<Edge> {
    set e | e in E && !Connected(Below(E, e), e.a, e.b)
  }

  ghost predicate Spans(F: set<Edge>, E: set<Edge>) {
    forall u, v :: Connected(F, u, v) <==> Connected(E, u, v)
  }

  ghost predicate SpanningForest(F: set<Edge>, E: set<Edge>) {
    F <= E && Acyclic(F) && Spans(F, E)
  }

  /** Cutting the edge set at a threshold cuts the tree at that threshold. */
  lemma TreeOfBelow(E: set<Edge>, t: Edge)
    ensures TreeOf(Below(E, t)) == Below(TreeOf(E), t)
  {
    forall e | e in E && Before(e, t)
      ensures Below(Below(E, t), e) == Below(E, e)
    {
      forall f | Before(f, e)
        ensures Before(f, t)
      {
        BeforeTransitive(f, e, t);
      }
    }
  }

  /** Appending an edge no smaller than the others: the step Kruskal's loop takes. */
  lemma TreeExtend(E: set<Edge>, m: Edge)
    requires forall f :: f in E && f != m ==> Before(f, m)
    ensures TreeOf(E + {m}) == TreeOf(E) + if Connected(E, m.a, m.b) then {} else {m}
  {
    var F := E + {m};
    forall e | e in E && e != m
      ensures Below(F, e) == Below(E, e)
    {
      BeforeTotal(e, m);
    }
    BeforeTotal(m, m);
    assert Below(F, m) == Below(E, m) == E - {m};
    if m in E {
      assert F == E;
      ConnectedStep(E, m.a, m.b);
    } else {
      assert E - {m} == E;
    }
  }

  lemma {:induction false} LargestEdge(E: set<Edge>) returns (m: Edge)
    requires E != {}
    ensures m in E && forall f :: f in E && f != m ==> Before(f, m)
    decreases |E|
  {
    m :| m in E;
    if E != {m} {
      assert E - {m} != {};
      var n := LargestEdge(E - {m});
      BeforeTotal(m, n);
      if Before(m, n) {
        m := n;
      } else {
        forall f | f in E && f != m
          ensures Before(f, m)
        {
          if f != n { BeforeTransitive(f, n, m); }
        }
      }
    }
  }

  /** The tree is acyclic and connects exactly what the edges connect. */
  lemma {:induction false} TreeIsSpanningForest(E: set<Edge>)
    ensures SpanningForest(TreeOf(E), E)
    decreases |E|
  {
    var T := TreeOf(E);
    if E == {} {
      assert T == {};
    } else {
      var m := LargestEdge(E);
      var D := E - {m};
      assert E == D + {m};
      TreeIsSpanningForest(D);
      TreeExtend(D, m);
      var S := TreeOf(D);
      forall u, v
        ensures Connected(T, u, v) <==> Connected(E, u, v)
      {
        if Connected(D, m.a, m.b) {
          AddConnectedEdge(D, m);
        } else {
          ConnectedAdd(D, m, u, v);
          ConnectedAdd(S, m, u, v);
        }
      }
      if !Connected(D, m.a, m.b) {
        AcyclicAdd(S, m);
      }
    }
  }

  /** The bottleneck property: an edge's ends are joined in the tree by edges no larger than it. */
  lemma OmittedEdgeIsBridged(E: set<Edge>, e: Edge)
    requires e in E && e !in TreeOf(E)
    ensures Connected(Below(TreeOf(E), e), e.a, e.b)
  {
    TreeOfBelow(E, e);
    TreeIsSpanningForest(Below(E, e));
  }

  /** Seeing fewer edges never makes an agent drop a tree edge it does see. */
  lemma TreeAntitone(D: set<Edge>, E: set<Edge>)
    requires D <= E
    ensures TreeOf(E) * D <= TreeOf(D)
  {
    forall e | e in TreeOf(E) && e in D
      ensures e in TreeOf(D)
    {
      if Connected(Below(D, e), e.a, e.b) {
        ConnectedMono(Below(D, e), Below(E, e), e.a, e.b);
      }
    }
  }

  /** The number of tree edges: nodes minus components, over any set of nodes holding the ends. */
  lemma TreeSize(V: set<Addr>, E: set<Edge>)
    requires Endpoints(E) <= V
    ensures |TreeOf(E)| == |V| - |Components(V, E)|
  {
    TreeIsSpanningForest(E);
    assert Endpoints(TreeOf(E)) <= Endpoints(E);
    ForestCount(V, TreeOf(E));
    ComponentsDependOnConnection(V, TreeOf(E), E);
  }
}
