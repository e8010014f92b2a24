/** How far the tree moves when one link goes away. */
module Stability {
  import opened Graph
  import opened SpanningTree
  import opened Optimality

  /** The neighbours of `me` in a tree, as `LocalNeighbors` collects them. */
  ghost function Neighbors(me: Addr, T: set<Edge>): set<Addr> {
    set v | v in Endpoints(T) && Adjacent(T, me, v)
  }

  /** Losing a link the tree does not use changes nothing. */
  lemma LosingUnusedEdge(E: set<Edge>, x: Edge)
    requires x !in TreeOf(E)
    ensures TreeOf(E - {x}) == TreeOf(E)
  {
    var D := E - {x};
    forall e | e in D
      ensures Connected(Below(D, e), e.a, e.b) <==> Connected(Below(E, e), e.a, e.b)
    {
      assert Below(D, e) <= Below(E, e);
      if Connected(Below(D, e), e.a, e.b) {
        ConnectedMono(Below(D, e), Below(E, e), e.a, e.b);
      }
      if Connected(Below(E, e), e.a, e.b) {
        TreeIsSpanningForest(Below(E, e));
        TreeOfBelow(E, e);
        assert TreeOf(Below(E, e)) <= Below(D, e);
        ConnectedMono(TreeOf(Below(E, e)), Below(D, e), e.a, e.b);
      }
    }
  }

  /** What takes the place of a lost tree edge: nothing if the graph falls apart, and otherwise the
      least remaining edge across the gap it leaves. */
  ghost predicate Replacement(E: set<Edge>, x: Edge, r: set<Edge>) {
    var rest := TreeOf(E) - {x};
    if Connected(E - {x}, x.a, x.b) then
      exists y :: y in E - {x} && r == {y} && !Connected(rest, y.a, y.b) &&
                  forall z :: z in E - {x} && !Connected(rest, z.a, z.b) ==> z == y || Before(y, z)
    else
      r == {}
  }

  /** Losing a tree edge removes that edge and brings in exactly its replacement. */
  lemma LosingTreeEdge(E: set<Edge>, x: Edge) returns (r: set<Edge>)
    requires x in TreeOf(E)
    ensures Replacement(E, x, r)
    ensures TreeOf(E - {x}) == TreeOf(E) - {x} + r && r !! TreeOf(E) && |r| <= 1
  {
    var D, T := E - {x}, TreeOf(E);
    var S := TreeOf(D);
    r := S - T;
    TreeAntitone(D, E);
    assert S == T - {x} + r;
    TreeIsSpanningForest(E);
    TreeIsSpanningForest(D);
    ForestNoLargerThanTree(E, S);
    assert |S| == |T - {x}| + |r| && |T - {x}| == |T| - 1;
    if Connected(D, x.a, x.b) {
      assert Connected(S, x.a, x.b) && !Connected(T - {x}, x.a, x.b);
      assert S != T - {x};
      var y :| y in r;
      assert r == {y} by {
        assert |r - {y}| == |r| - 1;
      }
      ReplacementIsLeast(E, x, y);
    } else {
      DisconnectedHasNoReplacement(E, x);
    }
  }

  lemma DisconnectedHasNoReplacement(E: set<Edge>, x: Edge)
    requires x in TreeOf(E) && !Connected(E - {x}, x.a, x.b)
    ensures TreeOf(E - {x}) <= TreeOf(E)
  {
    var D := E - {x};
    forall e | e in TreeOf(D)
      ensures e in TreeOf(E)
    {
      var B := Below(D, e);
      if Connected(Below(E, e), e.a, e.b) {
        assert Below(E, e) <= B + {x};
        ConnectedMono(Below(E, e), B + {x}, e.a, e.b);
        ConnectedAdd(B, x, e.a, e.b);
        // the detour through x would reconnect the ends of x in D
        var near, far := x.a, x.b;
        if !(Connected(B, e.a, x.a) && Connected(B, x.b, e.b)) {
          near, far := x.b, x.a;
        }
        ConnectedMono(B, D, e.a, near);
        ConnectedMono(B, D, far, e.b);
        ConnectedStep(D, e.b, e.a);
        ConnectedTrans(D, far, e.b, e.a);
        ConnectedTrans(D, far, e.a, near);
        ConnectedSym(D, far, near);
      }
    }
  }

  lemma ReplacementIsLeast(E: set<Edge>, x: Edge, y: Edge)
    requires x in TreeOf(E)
    requires y in E - {x} && y !in TreeOf(E) && TreeOf(E - {x}) == TreeOf(E) - {x} + {y}
    ensures !Connected(TreeOf(E) - {x}, y.a, y.b)
    ensures forall z :: z in E - {x} && !Connected(TreeOf(E) - {x}, z.a, z.b) ==> z == y || Before(y, z)
  {
    var D, rest := E - {x}, TreeOf(E) - {x};
    var S := TreeOf(D);
    TreeIsSpanningForest(D);
    assert rest == S - {y};
    forall z | z in D && !Connected(rest, z.a, z.b)
      ensures z == y || Before(y, z)
    {
      BeforeTotal(y, z);
      if Before(z, y) {
        assert z !in S by {
          if z in S { ConnectedStep(rest, z.a, z.b); }
        }
        OmittedEdgeIsBridged(D, z);
        assert Below(S, z) <= rest;
        ConnectedMono(Below(S, z), rest, z.a, z.b);
      }
    }
  }

  /** At most four agents see their list of tree neighbours change. */
  lemma AtMostFourNodesChange(E: set<Edge>, x: Edge) returns (touched: set<Addr>)
    ensures |touched| <= 4
    ensures forall v :: v !in touched ==> Neighbors(v, TreeOf(E - {x})) == Neighbors(v, TreeOf(E))
  {
    if x !in TreeOf(E) {
      LosingUnusedEdge(E, x);
      touched := {};
    } else {
      var r := LosingTreeEdge(E, x);
      var y := if r == {} then x else (var y :| y in r; y);
      assert r <= {y} by {
        if r != {} { assert |r - {y}| == |r| - 1; }
      }
      touched := {x.a, x.b} + {y.a, y.b};
      AtMostFour(x.a, x.b, y.a, y.b);
      forall v | v !in touched
        ensures Neighbors(v, TreeOf(E - {x})) == Neighbors(v, TreeOf(E))
      {
        UntouchedNeighbors(v, TreeOf(E - {x}), TreeOf(E), {x, y});
      }
    }
  }

  lemma AtMostFour(a: Addr, b: Addr, c: Addr, d: Addr)
    ensures |{a, b} + {c, d}| <= 4
  {
    assert |{a, b}| <= 2 && |{c, d}| <= 2;
    assert |{a, b} + {c, d}| <= |{a, b}| + |{c, d}|;
  }

  lemma UntouchedNeighbors(v: Addr, S: set<Edge>, T: set<Edge>, change: set<Edge>)
    requires S + change == T + change
    requires forall e :: e in change ==> v != e.a && v != e.b
    ensures Neighbors(v, S) == Neighbors(v, T)
  {
  }

  lemma AdjacentIsNeighbor(v: Addr, w: Addr, T: set<Edge>)
    ensures w in Neighbors(v, T) <==> Adjacent(T, v, w)
  {
  }
}
