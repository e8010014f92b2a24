/** `ComputeMST` and `LocalNeighbors`, proved against the forest the edges determine. */
module Kruskal {
  import opened Prelude
  import opened Order
  import opened Graph
  import opened Forest
  import opened SpanningTree
  import opened Stability
  import opened UnionFind

  /** Invocations of `find`, recursive ones included, for `m` edges over `n` nodes. */
  ghost function FindBound(m: nat, n: nat): nat {
    2 * m * (Log2(n) + 1)
  }

  lemma FindBoundStep(m: nat, n: nat)
    ensures FindBound(0, n) == 0
    ensures FindBound(m + 1, n) == FindBound(m, n) + 2 * (Log2(n) + 1)
  {
  }

  /** Kruskal's loop. Its result depends on nothing but the set of edges, and it makes at most
      2 |E| (floor(log2 |V|) + 1) invocations of `find`. */
  method ComputeMST(nodes: seq<Addr>, edges: seq<Edge>) returns (mst: seq<Edge>, ghost finds: nat)
    ensures Ascending(Before, mst)
    ensures Elems(mst) == TreeOf(Elems(edges))
    ensures var keys := Elems(nodes) + Endpoints(Elems(edges));
            finds <= FindBound(|edges|, |keys|)
  {
    hide FindBound, TreeOf, Connected, Chains, Balanced, Partition, Log2, StrictTotal;
    EdgesAreTotal();
    var sorted := Sort(Before, edges);
    SameMultisetSameElems(sorted, edges);
    ghost var keys := Elems(nodes) + Endpoints(Elems(edges));
    var uf := new DisjointSets(nodes);
    mst := [];
    NoEdgesNoTree();
    FindBoundStep(0, |keys|);
    for i := 0 to |sorted|
      invariant fresh(uf) && uf.Valid()
      invariant uf.joined == Elems(sorted[..i])
      invariant Elems(mst) == TreeOf(uf.joined)
      invariant Ascending(Before, mst)
      invariant uf.root.Keys <= keys
      invariant uf.finds <= FindBound(i, |keys|)
    {
      var e := sorted[i];
      ghost var seen := uf.joined;
      LoopStep(sorted, i, mst);
      uf.SameIsConnected(e.a, e.b);
      var keep := uf.Union(e.a, e.b);
      Log2OfSubset(uf.root.Keys, keys);
      FindBoundStep(i, |keys|);
      if keep {
        mst := mst + [e];
      }
    }
    assert sorted[..|sorted|] == sorted;
    finds := uf.finds;
  }

  /** One turn of Kruskal's loop over an ascending list, seen from the tree it builds. */
  lemma LoopStep(sorted: seq<Edge>, i: nat, mst: seq<Edge>)
    requires Sorted(Before, sorted) && i < |sorted|
    requires Elems(mst) == TreeOf(Elems(sorted[..i])) && Ascending(Before, mst)
    ensures var seen, e := Elems(sorted[..i]), sorted[i];
            && Elems(sorted[..i + 1]) == seen + {e}
            && {e.a, e.b} <= Endpoints(Elems(sorted))
            && (if Connected(seen, e.a, e.b) then TreeOf(seen + {e}) == Elems(mst)
                else TreeOf(seen + {e}) == Elems(mst + [e]) && Ascending(Before, mst + [e]))
  {
    var seen, e := Elems(sorted[..i]), sorted[i];
    assert sorted[..i + 1] == sorted[..i] + [e];
    ElemsOfSnoc(sorted[..i], e);
    ElemsOfSnoc(mst, e);
    assert e in Elems(sorted);
    LargestSoFar(sorted, i);
    TreeExtend(seen, e);
    if !Connected(seen, e.a, e.b) {
      KeptIsNew(seen, e);
      forall k | 0 <= k < |mst|
        ensures Before(mst[k], e)
      {
        assert mst[k] in Elems(mst);
      }
    }
  }

  lemma NoEdgesNoTree()
    ensures TreeOf({}) == {}
  {
  }

  lemma LargestSoFar(sorted: seq<Edge>, i: nat)
    requires Sorted(Before, sorted) && i < |sorted|
    ensures forall f :: f in Elems(sorted[..i]) && f != sorted[i] ==> Before(f, sorted[i])
  {
  }

  lemma KeptIsNew(seen: set<Edge>, e: Edge)
    requires !Connected(seen, e.a, e.b)
    ensures e !in seen
  {
    if e in seen { ConnectedStep(seen, e.a, e.b); }
  }

  /** Two agents with the same set of edges hold the same list, whatever nodes they know, and
      whatever order or repetitions their edges came in. */
  lemma AgentsAgree(E: set<Edge>, mst: seq<Edge>, mst': seq<Edge>)
    requires Ascending(Before, mst) && Elems(mst) == TreeOf(E)
    requires Ascending(Before, mst') && Elems(mst') == TreeOf(E)
    ensures mst == mst'
    ensures forall V :: Endpoints(E) <= V ==> |mst| == |V| - |Components(V, E)|
  {
    EdgesAreTotal();
    AscendingIsUnique(Before, mst, mst');
    AscendingHasNoDuplicates(Before, mst);
    forall V | Endpoints(E) <= V
      ensures |mst| == |V| - |Components(V, E)|
    {
      TreeSize(V, E);
    }
  }

  /** Self-loops never matter. */
  lemma SelfLoopsAreIgnored(E: set<Edge>, x: Addr)
    ensures TreeOf(E + {Edge(x, x)}) == TreeOf(E)
  {
    var loop := Edge(x, x);
    forall F: set<Edge>
      ensures Connected(F, x, x)
    {
      ConnectedRefl(F, x);
    }
    assert loop !in TreeOf(E + {loop}) && loop !in TreeOf(E);
    Stability.LosingUnusedEdge(E + {loop}, loop);
    Stability.LosingUnusedEdge(E, loop);
    assert E + {loop} - {loop} == E - {loop};
  }

  /** Fills a list from the keys of a Go map or set, in whatever order the iteration takes, and sorts it. */
  method SortedKeys(keys: set<string>) returns (out: seq<string>)
    ensures Ascending(Less, out)
    ensures Elems(out) == keys
  {
    StringsAreTotal();
    out := [];
    var rest := keys;
    while rest != {}
      invariant Elems(out) + rest == keys && Elems(out) !! rest
      invariant |Elems(out)| == |out|
      decreases |rest|
    {
      var k :| k in rest;
      ElemsOfSnoc(out, k);
      out := out + [k];
      rest := rest - {k};
    }
    out := SortDistinct(Less, out);
  }

  method LocalNeighbors(me: Addr, mst: seq<Edge>) returns (out: seq<Addr>)
    ensures Ascending(Less, out)
    ensures Elems(out) == Neighbors(me, Elems(mst))
  {
    var near := {};
    for i := 0 to |mst|
      invariant near == Neighbors(me, Elems(mst[..i]))
    {
      assert mst[..i + 1] == mst[..i] + [mst[i]];
      ElemsOfSnoc(mst[..i], mst[i]);
      NeighborsOfOneMore(me, Elems(mst[..i]), mst[i]);
      if me == mst[i].a {
        near := near + {mst[i].b};
      } else if me == mst[i].b {
        near := near + {mst[i].a};
      }
    }
    assert mst[..|mst|] == mst;
    out := SortedKeys(near);
  }

  lemma NeighborsOfOneMore(me: Addr, T: set<Edge>, e: Edge)
    ensures Neighbors(me, T + {e}) == Neighbors(me, T) +
              if me == e.a then {e.b} else if me == e.b then {e.a} else {}
  {
  }

  /** The lists of all nodes describe one undirected graph without loops: exactly the tree. */
  lemma NeighborsAreTheTree(E: set<Edge>, u: Addr, v: Addr)
    ensures v in Neighbors(u, TreeOf(E)) <==> u in Neighbors(v, TreeOf(E))
    ensures v in Neighbors(u, TreeOf(E)) <==> Edge(u, v) in TreeOf(E) || Edge(v, u) in TreeOf(E)
    ensures u !in Neighbors(u, TreeOf(E))
  {
    AdjacentIsNeighbor(u, v, TreeOf(E));
    AdjacentIsNeighbor(v, u, TreeOf(E));
    AdjacentIsNeighbor(u, u, TreeOf(E));
    ConnectedRefl(Below(E, Edge(u, u)), u);
  }
}
