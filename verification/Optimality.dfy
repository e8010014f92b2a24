/** Why Kruskal's forest is the minimum one, and why it is the only one. */
module Optimality {
  import opened Prelude
  import opened Order
  import opened Graph
  import opened Forest
  import opened SpanningTree

  /** No forest within `E` has more edges than the tree. */
  lemma ForestNoLargerThanTree(E: set<Edge>, F: set<Edge>)
    requires F <= E && Acyclic(F)
    ensures |F| <= |TreeOf(E)|
    ensures Spans(F, E) ==> |F| == |TreeOf(E)|
  {
    var V := Endpoints(E);
    assert Endpoints(F) <= V;
    ForestCount(V, F);
    TreeSize(V, E);
    ComponentsAntitone(V, F, E);
    if Spans(F, E) {
      ComponentsDependOnConnection(V, F, E);
    }
  }

  /** The same below any threshold: the exchange property, stated by counting. */
  lemma ForestNoLargerBelow(E: set<Edge>, F: set<Edge>, t: Edge)
    requires F <= E && Acyclic(F)
    ensures |Below(F, t)| <= |Below(TreeOf(E), t)|
  {
    AcyclicSubset(Below(F, t), F);
    ForestNoLargerThanTree(Below(E, t), Below(F, t));
    TreeOfBelow(E, t);
  }

  /** In an ascending list, the edges below the i-th are the first i. */
  lemma BelowIsPrefix(s: seq<Edge>, i: nat)
    requires Ascending(Before, s) && i < |s|
    ensures Below(Elems(s), s[i]) == Elems(s[..i])
    ensures |Elems(s[..i]) + {s[i]}| == i + 1
  {
    EdgesAreTotal();
    AscendingHasNoDuplicates(Before, s[..i]);
    forall k | 0 <= k < |s|
      ensures Before(s[k], s[i]) <==> k < i
    {
      BeforeTotal(s[k], s[i]);
    }
    forall f | f in Below(Elems(s), s[i])
      ensures f in Elems(s[..i])
    {
      var k :| 0 <= k < |s| && s[k] == f;
      assert f == s[..i][k];
    }
    assert s[i] !in s[..i];
  }

  /** Greedy optimality: edge by edge, no forest of the same graph beats the tree. */
  lemma TreeIsMinimum(E: set<Edge>, tree: seq<Edge>, forest: seq<Edge>)
    requires Ascending(Before, tree) && Elems(tree) == TreeOf(E)
    requires Ascending(Before, forest) && Elems(forest) <= E && Acyclic(Elems(forest))
    ensures |forest| <= |tree|
    ensures Spans(Elems(forest), E) ==> |forest| == |tree|
    ensures forall i :: 0 <= i < |forest| ==> tree[i] == forest[i] || Before(tree[i], forest[i])
  {
    EdgesAreTotal();
    AscendingHasNoDuplicates(Before, tree);
    AscendingHasNoDuplicates(Before, forest);
    ForestNoLargerThanTree(E, Elems(forest));
    forall i | 0 <= i < |forest|
      ensures tree[i] == forest[i] || Before(tree[i], forest[i])
    {
      TreeEdgeNoLarger(E, tree, forest, i);
    }
  }

  lemma TreeEdgeNoLarger(E: set<Edge>, tree: seq<Edge>, forest: seq<Edge>, i: nat)
    requires Ascending(Before, tree) && Elems(tree) == TreeOf(E)
    requires Ascending(Before, forest) && Elems(forest) <= E && Acyclic(Elems(forest))
    requires i < |forest| <= |tree|
    ensures tree[i] == forest[i] || Before(tree[i], forest[i])
  {
    BeforeTotal(tree[i], forest[i]);
    if Before(forest[i], tree[i]) {
      // forest[..i + 1] lies below tree[i], where the tree has only i edges
      EdgesAreTotal();
      var F, t := Elems(forest), tree[i];
      ForestNoLargerBelow(E, F, t);
      BelowIsPrefix(tree, i);
      BelowIsPrefix(forest, i);
      AscendingHasNoDuplicates(Before, tree[..i]);
      forall f | f in Elems(forest[..i]) + {forest[i]}
        ensures f in Below(F, t)
      {
        if f != forest[i] { BeforeTransitive(f, forest[i], t); }
      }
      SubsetSize(Elems(forest[..i]) + {forest[i]}, Below(F, t));
      assert false;
    }
  }

  /** Each omitted edge is joined by smaller kept ones. */
  ghost predicate CycleOptimal(F: set<Edge>, E: set<Edge>) {
    forall e :: e in E && e !in F ==> Connected(Below(F, e), e.a, e.b)
  }

  /** The tree is the one acyclic subset in which every omitted edge is bridged from below. */
  lemma TreeIsUnique(E: set<Edge>, F: set<Edge>)
    requires F <= E
    ensures F == TreeOf(E) <==> Acyclic(F) && CycleOptimal(F, E)
  {
    if F == TreeOf(E) {
      TreeIsSpanningForest(E);
      forall e | e in E && e !in F
        ensures Connected(Below(F, e), e.a, e.b)
      {
        OmittedEdgeIsBridged(E, e);
      }
    }
    if Acyclic(F) && CycleOptimal(F, E) {
      forall e | e in E
        ensures e in F <==> e in TreeOf(E)
      {
        if e in F {
          KeptEdgeIsInTree(E, F, e);
        } else {
          ConnectedMono(Below(F, e), Below(E, e), e.a, e.b);
        }
      }
    }
  }

  lemma KeptEdgeIsInTree(E: set<Edge>, F: set<Edge>, e: Edge)
    requires F <= E && Acyclic(F) && CycleOptimal(F, E) && e in F
    ensures e in TreeOf(E)
  {
    if Connected(Below(E, e), e.a, e.b) {
      forall f | f in Below(E, e)
        ensures Connected(F - {e}, f.a, f.b)
      {
        BeforeTotal(e, f);
        if f in F {
          ConnectedStep(F - {e}, f.a, f.b);
        } else {
          assert Below(F, f) <= F - {e};
          ConnectedMono(Below(F, f), F - {e}, f.a, f.b);
        }
      }
      ConnectedReplace(Below(E, e), F - {e}, e.a, e.b);
    }
  }
}
