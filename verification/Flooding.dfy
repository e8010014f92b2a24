/** Flooding over the local neighbour lists: a node that receives a frame from one tree neighbour
    forwards it to every other. No node remembers what it has seen.

    The forwarding rule is a definition of this model, not FRR's behaviour. */
module Flooding {
  import opened Prelude
  import opened Order
  import opened Graph
  import opened Forest
  import opened SpanningTree
  import opened Stability
  import opened Kruskal

  /** Every node's list, as `LocalNeighbors` returns it for the tree `T`. */
  ghost predicate Tables(tables: map<Addr, seq<Addr>>, T: set<Edge>) {
    && Endpoints(T) <= tables.Keys
    && forall v :: v in tables ==> IsTable(tables[v], v, T)
  }

  ghost predicate IsTable(table: seq<Addr>, v: Addr, T: set<Edge>) {
    Ascending(Less, table) && Elems(table) == Neighbors(v, T)
  }

  /** The copies a node sends on: one to each listed neighbour but the sender. */
  method Forward(from: Addr, at: Addr, table: seq<Addr>) returns (copies: multiset<(Addr, Addr)>)
    requires Ascending(Less, table)
    ensures copies == multiset(set n | n in table && n != from :: (at, n))
  {
    StringsAreTotal();
    copies := multiset{};
    ghost var sent: set<(Addr, Addr)> := {};
    for i := 0 to |table|
      invariant copies == multiset(sent)
      invariant sent == set n | n in table[..i] && n != from :: (at, n)
    {
      assert table[..i + 1] == table[..i] + [table[i]];
      if table[i] != from {
        assert table[i] !in table[..i];
        assert (at, table[i]) !in sent;
        copies := copies + multiset{(at, table[i])};
        sent := sent + {(at, table[i])};
      }
    }
    assert table[..|table|] == table;
  }

  /** The tree edges with both ends reached. */
  ghost function Within(T: set<Edge>, D: set<Addr>): set<Edge> {
    set e | e in T && e.a in D && e.b in D
  }

  /** The directed tree edges leaving the nodes reached. */
  ghost function Boundary(T: set<Edge>, D: set<Addr>): set<(Addr, Addr)> {
    set p, c | p in D && c in Endpoints(T) && c !in D && Adjacent(T, p, c) :: (p, c)
  }

  ghost predicate Reached(T: set<Edge>, s: Addr, D: set<Addr>) {
    s in D && forall x :: x in D ==> Connected(Within(T, D), s, x)
  }

  /** Only one node reached so far is next to a node not reached: a second would close a cycle. */
  lemma OnlyOneWayIn(T: set<Edge>, s: Addr, D: set<Addr>, c: Addr, p: Addr, q: Addr)
    requires Acyclic(T) && Reached(T, s, D)
    requires c !in D && p in D && q in D && Adjacent(T, p, c) && Adjacent(T, q, c)
    ensures p == q
  {
    if p != q {
      var e := if Edge(q, c) in T then Edge(q, c) else Edge(c, q);
      var W, R := Within(T, D), T - {e};
      ConnectedSym(W, s, q);
      ConnectedTrans(W, q, s, p);
      ConnectedMono(W, R, q, p);
      ConnectedStep(R, p, c);
      ConnectedTrans(R, q, p, c);
      ConnectedSym(R, q, c);
    }
  }

  lemma ReachedGrows(T: set<Edge>, s: Addr, D: set<Addr>, p: Addr, c: Addr)
    requires Reached(T, s, D) && p in D && Adjacent(T, p, c)
    ensures Reached(T, s, D + {c})
  {
    var W, W' := Within(T, D), Within(T, D + {c});
    forall x | x in D
      ensures Connected(W', s, x)
    {
      ConnectedMono(W, W', s, x);
    }
    ConnectedStep(W', p, c);
    ConnectedTrans(W', s, p, c);
  }

  /** Delivering one copy moves the boundary by exactly that copy and the copies sent on. */
  lemma BoundaryMoves(T: set<Edge>, s: Addr, D: set<Addr>, p: Addr, c: Addr)
    requires Acyclic(T) && Reached(T, s, D) && (p, c) in Boundary(T, D)
    ensures var sent := set n | n in Neighbors(c, T) && n != p :: (c, n);
            sent !! Boundary(T, D) && Boundary(T, D + {c}) == Boundary(T, D) - {(p, c)} + sent
  {
    var sent := set n | n in Neighbors(c, T) && n != p :: (c, n);
    forall n | n in Neighbors(c, T) && n != p
      ensures n !in D + {c}
    {
      AdjacentIsNeighbor(c, n, T);
      if n in D { OnlyOneWayIn(T, s, D, c, p, n); }
      if n == c {
        ConnectedRefl(T - {Edge(c, c)}, c);
      }
    }
    forall x, y
      ensures (x, y) in Boundary(T, D + {c}) <==> (x, y) in Boundary(T, D) - {(p, c)} + sent
    {
      AdjacentIsNeighbor(x, y, T);
      if (x, y) in Boundary(T, D) && y == c { OnlyOneWayIn(T, s, D, c, p, x); }
    }
  }

  /** In every order the copies are delivered in, flooding ends, having reached every node of the
      sender's component exactly once and no other node at all. */
  method Flood(ghost T: set<Edge>, tables: map<Addr, seq<Addr>>, s: Addr) returns (delivered: multiset<Addr>)
    requires Acyclic(T) && Tables(tables, T) && s in tables
    ensures forall v :: delivered[v] == if Connected(T, s, v) then 1 else 0
  {
    hide Acyclic, Connected, Reached, Boundary, Neighbors;
    ghost var D := {s};
    delivered := multiset{s};
    StartAtSource(T, s);
    var inFlight := Forward(s, s, tables[s]);
    while inFlight != multiset{}
      invariant delivered == multiset(D) && D <= tables.Keys
      invariant Reached(T, s, D) && inFlight == multiset(Boundary(T, D))
      decreases tables.Keys - D
    {
      var copy :| copy in inFlight;
      var (p, c) := copy;
      InBoundary(T, D, p, c);
      ReachedGrows(T, s, D, p, c);
      BoundaryMoves(T, s, D, p, c);
      var copies := Forward(p, c, tables[c]);
      delivered := delivered + multiset{c};
      inFlight := inFlight - multiset{copy} + copies;
      D := D + {c};
    }
    forall v
      ensures v in D <==> Connected(T, s, v)
    {
      NothingLeft(T, s, D, v);
    }
  }

  method LocalTable(edges: seq<Edge>, v: Addr) returns (table: seq<Addr>)
    ensures IsTable(table, v, TreeOf(Elems(edges)))
  {
    hide FindBound, TreeOf;
    var tree, _ := ComputeMST([], edges);
    table := LocalNeighbors(v, tree);
  }

  /** Every agent runs Kruskal on its own list of the same edges, in its own order and with its own
      repetitions. */
  method BuildTables(edges: map<Addr, seq<Edge>>, ghost E: set<Edge>) returns (tables: map<Addr, seq<Addr>>)
    requires Endpoints(E) <= edges.Keys
    requires forall v :: v in edges ==> Elems(edges[v]) == E
    ensures tables.Keys == edges.Keys && Tables(tables, TreeOf(E))
  {
    hide IsTable, TreeOf, Elems;
    tables := map[];
    var rest := edges.Keys;
    while rest != {}
      invariant rest <= edges.Keys && tables.Keys == edges.Keys - rest
      invariant forall v :: v in tables ==> IsTable(tables[v], v, TreeOf(E))
      decreases |rest|
    {
      var v :| v in rest;
      rest := rest - {v};
      var table := LocalTable(edges[v], v);
      tables := tables[v := table];
    }
    TreeEndpoints(E);
  }

  lemma TreeEndpoints(E: set<Edge>)
    ensures Endpoints(TreeOf(E)) <= Endpoints(E)
  {
  }

  /** The whole mesh: a frame sent by `s` reaches exactly the nodes the links connect to it, once each. */
  method FloodMesh(edges: map<Addr, seq<Edge>>, ghost E: set<Edge>, s: Addr) returns (delivered: multiset<Addr>)
    requires s in edges && Endpoints(E) <= edges.Keys
    requires forall v :: v in edges ==> Elems(edges[v]) == E
    ensures forall v :: delivered[v] == if Connected(E, s, v) then 1 else 0
  {
    hide Connected, Acyclic, TreeOf, Tables;
    TreeIsSpanningForest(E);
    var tables := BuildTables(edges, E);
    delivered := Flood(TreeOf(E), tables, s);
  }

  lemma InBoundary(T: set<Edge>, D: set<Addr>, p: Addr, c: Addr)
    requires (p, c) in Boundary(T, D)
    ensures p in D && c !in D && c in Endpoints(T) && Adjacent(T, p, c)
  {
  }

  lemma StartAtSource(T: set<Edge>, s: Addr)
    requires Acyclic(T)
    ensures Reached(T, s, {s})
    ensures Boundary(T, {s}) == set n | n in Neighbors(s, T) && n != s :: (s, n)
  {
    ConnectedRefl(Within(T, {s}), s);
  }

  lemma NothingLeft(T: set<Edge>, s: Addr, D: set<Addr>, v: Addr)
    requires Reached(T, s, D) && Boundary(T, D) == {}
    ensures v in D <==> Connected(T, s, v)
  {
    if v in D {
      ConnectedMono(Within(T, D), T, s, v);
    }
    if Connected(T, s, v) {
      var inside := iset x | x in D;
      forall x, y | x in inside && Adjacent(T, x, y)
        ensures y in inside
      {
        AdjacentIsNeighbor(x, y, T);
        assert y in Endpoints(T);
        assert (x, y) !in Boundary(T, D);
      }
      ConnectedStaysInside(T, inside, s, v);
    }
  }

  /** What `at` sends on when a copy reaches it from `from`. */
  ghost function Sent(tables: map<Addr, seq<Addr>>, from: Addr, at: Addr): set<(Addr, Addr)> {
    if at in tables then set n | n in tables[at] && n != from :: (at, n) else {}
  }

  /** The copies under way once those in `copies` have been delivered, the last one last. */
  ghost function InFlight(tables: map<Addr, seq<Addr>>, s: Addr, copies: seq<(Addr, Addr)>): multiset<(Addr, Addr)> {
    if copies == [] then multiset(Sent(tables, s, s))
    else
      var n := |copies| - 1;
      InFlight(tables, s, copies[..n]) - multiset{copies[n]} + multiset(Sent(tables, copies[n].0, copies[n].1))
  }

  /** A frame sent by `s`, its copies delivered in any order and for as long as one likes. */
  ghost predicate FloodRun(tables: map<Addr, seq<Addr>>, s: Addr, copies: seq<(Addr, Addr)>) {
    copies == [] ||
    (var n := |copies| - 1;
     FloodRun(tables, s, copies[..n]) && copies[n] in InFlight(tables, s, copies[..n]))
  }

  /** How often the frame was where, its source included. */
  ghost function Delivered(s: Addr, copies: seq<(Addr, Addr)>): multiset<Addr> {
    if copies == [] then multiset{s}
    else Delivered(s, copies[..|copies| - 1]) + multiset{copies[|copies| - 1].1}
  }

  /** No frame comes to a node twice, whoever sends it and however it spreads. */
  ghost predicate NeverTwice(tables: map<Addr, seq<Addr>>) {
    forall s, copies, v :: s in tables && FloodRun(tables, s, copies) ==> Delivered(s, copies)[v] <= 1
  }

  /** Links have two ends and one name. */
  ghost predicate OneName(T: set<Edge>) {
    forall e :: e in T ==> e.a != e.b && Edge(e.b, e.a) !in T
  }

  /** Over any lists that both ends of a link agree on, no frame comes to a node twice exactly when the
      links have no cycle. */
  lemma NeverTwiceExactlyWhen(T: set<Edge>, tables: map<Addr, seq<Addr>>)
    requires Tables(tables, T) && OneName(T)
    ensures NeverTwice(tables) <==> Acyclic(T)
  {
    if Acyclic(T) {
      forall s, copies, v | s in tables && FloodRun(tables, s, copies)
        ensures Delivered(s, copies)[v] <= 1
      {
        TablesListFrom(T, tables, s);
        var D, F := SpreadsOverLinks(T, tables, s, copies);
      }
    } else {
      var e :| e in T && Connected(T - {e}, e.a, e.b);
      TablesCover(T, tables);
      var copies := FrameComesBack(T, tables, e);
      assert e.a in Endpoints(T);
      assert Delivered(e.a, copies)[e.a] >= 2;
    }
  }

  /** Every list reachable from `s` names links of `T`, at one end or both, each once. */
  ghost predicate ListsFrom(tables: map<Addr, seq<Addr>>, T: set<Edge>, s: Addr) {
    s in tables && forall k, v :: k in tables && v in tables[k] && Connected(T, s, k) ==> Adjacent(T, k, v)
  }

  lemma {:induction false} SpreadsOverLinks(
    T: set<Edge>, tables: map<Addr, seq<Addr>>, s: Addr, copies: seq<(Addr, Addr)>)
    returns (D: set<Addr>, F: set<(Addr, Addr)>)
    requires Acyclic(T) && ListsFrom(tables, T, s) && FloodRun(tables, s, copies)
    ensures Delivered(s, copies) == multiset(D) && |D| == |copies| + 1 && Reached(T, s, D)
    ensures InFlight(tables, s, copies) == multiset(F) && F <= Boundary(T, D)
    decreases |copies|
  {
    hide Acyclic, Reached, Boundary, ListsFrom, Sent, InFlight, Delivered, FloodRun;
    if copies == [] {
      D, F := {s}, Sent(tables, s, s);
      StartAtSource(T, s);
      FloodStarts(tables, s);
      SentAtStart(T, tables, s);
    } else {
      var (p, c) := copies[|copies| - 1];
      LastCopy(tables, s, copies, p, c);
      D, F := SpreadsOverLinks(T, tables, s, copies[..|copies| - 1]);
      CopySpreads(T, tables, s, D, F, p, c);
      D, F := D + {c}, F - {(p, c)} + Sent(tables, p, c);
    }
  }

  lemma TablesListFrom(T: set<Edge>, tables: map<Addr, seq<Addr>>, s: Addr)
    requires Tables(tables, T) && s in tables
    ensures ListsFrom(tables, T, s)
  {
    forall k, v | k in tables && v in tables[k]
      ensures Adjacent(T, k, v)
    {
      assert IsTable(tables[k], k, T) && v in Elems(tables[k]);
      AdjacentIsNeighbor(k, v, T);
    }
  }

  lemma SentAtStart(T: set<Edge>, tables: map<Addr, seq<Addr>>, s: Addr)
    requires Acyclic(T) && ListsFrom(tables, T, s)
    ensures Sent(tables, s, s) <= Boundary(T, {s}) && s in tables
  {
    ConnectedRefl(T, s);
    forall n | n in tables[s] && n != s
      ensures (s, n) in Boundary(T, {s})
    {
      AdjacentIsNeighbor(s, n, T);
    }
  }

  /** Delivering a copy, with what is in flight kept on the boundary. */
  lemma CopySpreads(
    T: set<Edge>, tables: map<Addr, seq<Addr>>, s: Addr, D: set<Addr>, F: set<(Addr, Addr)>, p: Addr, c: Addr)
    requires Acyclic(T) && ListsFrom(tables, T, s) && Reached(T, s, D)
    requires F <= Boundary(T, D) && (p, c) in F
    ensures Reached(T, s, D + {c}) && c !in D && multiset(D) + multiset{c} == multiset(D + {c})
    ensures F - {(p, c)} + Sent(tables, p, c) <= Boundary(T, D + {c})
    ensures multiset(F) - multiset{(p, c)} + multiset(Sent(tables, p, c)) ==
            multiset(F - {(p, c)} + Sent(tables, p, c))
  {
    InBoundary(T, D, p, c);
    ReachedIsConnected(T, s, D, p, c);
    hide Acyclic, Reached, Boundary, Neighbors;
    ReachedGrows(T, s, D, p, c);
    BoundaryMoves(T, s, D, p, c);
    forall n | c in tables && n in tables[c] && n != p
      ensures (c, n) in Boundary(T, D + {c}) && (c, n) !in Boundary(T, D)
    {
      AdjacentIsNeighbor(c, n, T);
    }
    CopyMoves(F, (p, c), Sent(tables, p, c));
  }

  lemma ReachedIsConnected(T: set<Edge>, s: Addr, D: set<Addr>, p: Addr, c: Addr)
    requires Reached(T, s, D) && p in D && Adjacent(T, p, c)
    ensures Connected(T, s, p) && Connected(T, s, c)
  {
    ConnectedMono(Within(T, D), T, s, p);
    ConnectedStep(T, p, c);
    ConnectedTrans(T, s, p, c);
  }

  lemma LastCopy(tables: map<Addr, seq<Addr>>, s: Addr, copies: seq<(Addr, Addr)>, p: Addr, c: Addr)
    requires FloodRun(tables, s, copies) && copies != [] && copies[|copies| - 1] == (p, c)
    ensures var before := copies[..|copies| - 1];
            && FloodRun(tables, s, before) && (p, c) in InFlight(tables, s, before)
            && Delivered(s, copies) == Delivered(s, before) + multiset{c}
            && InFlight(tables, s, copies) ==
               InFlight(tables, s, before) - multiset{(p, c)} + multiset(Sent(tables, p, c))
  {
  }

  lemma CopyMoves(B: set<(Addr, Addr)>, copy: (Addr, Addr), sent: set<(Addr, Addr)>)
    requires copy in B && sent !! B
    ensures multiset(B) - multiset{copy} + multiset(sent) == multiset(B - {copy} + sent)
  {
  }

  lemma {:induction false} ShortestWalk(E: set<Edge>, u: Addr, v: Addr, p: seq<Addr>) returns (q: seq<Addr>)
    requires Walk(E, u, p, v)
    ensures Walk(E, u, q, v) && forall r :: Walk(E, u, r, v) ==> |q| <= |r|
    decreases |p|
  {
    if r :| Walk(E, u, r, v) && |r| < |p| {
      q := ShortestWalk(E, u, v, r);
    } else {
      q := p;
    }
  }

  /** The node a walk is at after `i` steps. */
  ghost function At(u: Addr, p: seq<Addr>, i: nat): Addr
    requires i <= |p|
  {
    if i == 0 then u else p[i - 1]
  }

  lemma {:induction false} WalkSplits(E: set<Edge>, u: Addr, p: seq<Addr>, v: Addr, i: nat)
    requires Walk(E, u, p, v) && i <= |p|
    ensures Walk(E, u, p[..i], At(u, p, i)) && Walk(E, At(u, p, i), p[i..], v)
    decreases i
  {
    if i == 0 {
      assert p[0..] == p;
    } else {
      WalkSplits(E, p[0], p[1..], v, i - 1);
      assert At(p[0], p[1..], i - 1) == At(u, p, i);
      assert p[1..][i - 1..] == p[i..] && p[..i][1..] == p[1..][..i - 1];
    }
  }

  /** A shortest walk never visits a node twice. */
  lemma ShortestDoesNotReturn(E: set<Edge>, u: Addr, p: seq<Addr>, v: Addr, i: nat, j: nat)
    requires Walk(E, u, p, v) && forall r :: Walk(E, u, r, v) ==> |p| <= |r|
    requires i < j <= |p|
    ensures At(u, p, i) != At(u, p, j)
  {
    if At(u, p, i) == At(u, p, j) {
      WalkSplits(E, u, p, v, i);
      WalkSplits(E, u, p, v, j);
      WalkConcat(E, u, p[..i], At(u, p, i), p[j..], v);
    }
  }

  /** The copies that follow a walk from `u`. */
  ghost function Along(u: Addr, p: seq<Addr>): seq<(Addr, Addr)> {
    seq(|p|, i requires 0 <= i < |p| => (At(u, p, i), p[i]))
  }

  /** Every link is listed at both ends; other nodes may be listed too. */
  ghost predicate Covers(tables: map<Addr, seq<Addr>>, T: set<Edge>) {
    forall x, n {:trigger Adjacent(T, x, n)} :: Adjacent(T, x, n) ==> x in tables && n in tables && n in tables[x]
  }

  lemma TablesCover(T: set<Edge>, tables: map<Addr, seq<Addr>>)
    requires Tables(tables, T)
    ensures Covers(tables, T)
  {
    forall x, n | Adjacent(T, x, n)
      ensures x in tables && n in tables && n in tables[x]
    {
      assert x in Endpoints(T) && n in Endpoints(T);
      assert IsTable(tables[x], x, T);
      AdjacentIsNeighbor(x, n, T);
      assert n in Elems(tables[x]);
    }
  }

  lemma ListedIsSent(T: set<Edge>, tables: map<Addr, seq<Addr>>, from: Addr, at: Addr)
    requires Covers(tables, T)
    ensures forall n :: Adjacent(T, at, n) && n != from ==> (at, n) in Sent(tables, from, at)
  {
  }

  /** A frame can follow any walk that never turns straight back. */
  lemma {:induction false} FrameFollows(T: set<Edge>, tables: map<Addr, seq<Addr>>, u: Addr, p: seq<Addr>, v: Addr)
    requires Covers(tables, T) && OneName(T) && u in tables && Walk(T, u, p, v)
    requires forall i :: 0 <= i < |p| - 1 ==> At(u, p, i) != p[i + 1]
    ensures FloodRun(tables, u, Along(u, p))
    ensures p != [] ==> v in tables && Delivered(u, Along(u, p))[v] >= if v == u then 2 else 1
    ensures forall n :: Adjacent(T, v, n) && (p != [] ==> n != At(u, p, |p| - 1)) ==>
              (v, n) in InFlight(tables, u, Along(u, p))
    decreases |p|
  {
    hide Covers, Adjacent, OneName, InFlight, Delivered, FloodRun, Sent, Walk, Along;
    if p == [] {
      FloodStarts(tables, u);
      ListedIsSent(T, tables, u, u);
      NotOwnNeighbor(T, u);
      StandingStill(T, u, v);
    } else {
      var n, w := |p| - 1, At(u, p, |p| - 1);
      LastStep(T, u, p, v);
      forall i | 0 <= i < n - 1
        ensures At(u, p[..n], i) != p[..n][i + 1]
      {
        assert At(u, p[..n], i) == At(u, p, i);
      }
      FrameFollows(T, tables, u, p[..n], w);
      if n > 0 { assert At(u, p[..n], n - 1) == At(u, p, n - 1); }
      StepEnds(T, tables, w, v);
      OneMoreCopy(tables, u, Along(u, p[..n]), w, v);
      ListedIsSent(T, tables, w, v);
      StartIsDelivered(u, Along(u, p[..n]));
    }
  }

  lemma StandingStill(T: set<Edge>, u: Addr, v: Addr)
    requires Walk(T, u, [], v)
    ensures u == v && Along(u, []) == []
  {
  }

  lemma FloodStarts(tables: map<Addr, seq<Addr>>, s: Addr)
    ensures FloodRun(tables, s, []) && InFlight(tables, s, []) == multiset(Sent(tables, s, s))
    ensures Delivered(s, []) == multiset{s}
  {
  }

  lemma LastStep(T: set<Edge>, u: Addr, p: seq<Addr>, v: Addr)
    requires p != [] && Walk(T, u, p, v)
    ensures var n := |p| - 1; var w := At(u, p, n);
            Walk(T, u, p[..n], w) && Adjacent(T, w, v) && p[n] == v && Along(u, p) == Along(u, p[..n]) + [(w, v)]
  {
    WalkSplits(T, u, p, v, |p| - 1);
    assert Walk(T, p[|p| - 1], p[|p| - 1..][1..], v);
    var c, b := Along(u, p), Along(u, p[..|p| - 1]);
    forall i | 0 <= i < |b|
      ensures c[i] == b[i]
    {
    }
  }

  lemma OneMoreCopy(tables: map<Addr, seq<Addr>>, s: Addr, copies: seq<(Addr, Addr)>, p: Addr, c: Addr)
    requires FloodRun(tables, s, copies) && (p, c) in InFlight(tables, s, copies)
    ensures var more := copies + [(p, c)];
            && FloodRun(tables, s, more) && Delivered(s, more) == Delivered(s, copies) + multiset{c}
            && InFlight(tables, s, more) ==
               InFlight(tables, s, copies) - multiset{(p, c)} + multiset(Sent(tables, p, c))
  {
  }

  lemma NotOwnNeighbor(T: set<Edge>, u: Addr)
    requires OneName(T)
    ensures !Adjacent(T, u, u)
  {
  }

  lemma StepEnds(T: set<Edge>, tables: map<Addr, seq<Addr>>, w: Addr, v: Addr)
    requires Covers(tables, T) && Adjacent(T, w, v)
    ensures v in tables
  {
  }

  lemma {:induction false} StartIsDelivered(s: Addr, copies: seq<(Addr, Addr)>)
    ensures Delivered(s, copies)[s] >= 1
    decreases |copies|
  {
    if copies != [] { StartIsDelivered(s, copies[..|copies| - 1]); }
  }

  /** Around a cycle a frame comes back to its source. */
  lemma FrameComesBack(T: set<Edge>, tables: map<Addr, seq<Addr>>, e: Edge) returns (copies: seq<(Addr, Addr)>)
    requires Covers(tables, T) && OneName(T) && e in T && Connected(T - {e}, e.a, e.b)
    ensures FloodRun(tables, e.a, copies) && Delivered(e.a, copies)[e.a] >= 2
  {
    ConnectedSym(T - {e}, e.a, e.b);
    var any :| Walk(T - {e}, e.b, any, e.a);
    var p := ShortestWalk(T - {e}, e.b, e.a, any);
    var round := [e.b] + p;
    assert round[1..] == p;
    WalkMono(T - {e}, T, e.b, p, e.a);
    forall i | 0 <= i < |round| - 1
      ensures At(e.a, round, i) != round[i + 1]
    {
      if i > 0 {
        ShortestDoesNotReturn(T - {e}, e.b, p, e.a, i - 1, i + 1);
      } else {
        assert Adjacent(T - {e}, e.b, p[0]);
      }
    }
    assert Adjacent(T, e.a, e.b);
    FrameFollows(T, tables, e.a, round, e.a);
    copies := Along(e.a, round);
  }

  lemma {:induction false} WalkMono(E: set<Edge>, F: set<Edge>, u: Addr, p: seq<Addr>, v: Addr)
    requires E <= F && Walk(E, u, p, v)
    ensures Walk(F, u, p, v)
    decreases |p|
  {
    if p != [] { WalkMono(E, F, p[0], p[1..], v); }
  }

  /** A copy stays in flight until it is delivered. */
  lemma {:induction false} StaysInFlight(
    tables: map<Addr, seq<Addr>>, s: Addr, copies: seq<(Addr, Addr)>, copy: (Addr, Addr))
    requires FloodRun(tables, s, copies) && copy in Sent(tables, s, s) && copy !in copies
    ensures copy in InFlight(tables, s, copies)
    decreases |copies|
  {
    hide Sent, InFlight, FloodRun, Delivered;
    if copies == [] {
      FloodStarts(tables, s);
    } else {
      var (p, c) := copies[|copies| - 1];
      LastCopy(tables, s, copies, p, c);
      StaysInFlight(tables, s, copies[..|copies| - 1], copy);
    }
  }

  /** Two ways to a node: straight on a listed link, and round by others that are listed at both ends. */
  lemma TwoWays(T: set<Edge>, tables: map<Addr, seq<Addr>>, k: Addr, v: Addr) returns (copies: seq<(Addr, Addr)>)
    requires Covers(tables, T) && OneName(T) && k in tables && v in tables[k] && k != v
    requires !Adjacent(T, k, v) && Connected(T, k, v)
    ensures FloodRun(tables, k, copies) && Delivered(k, copies)[v] >= 2
  {
    var any :| Walk(T, k, any, v);
    var p := ShortestWalk(T, k, v, any);
    forall i | 0 <= i < |p| - 1
      ensures At(k, p, i) != p[i + 1]
    {
      ShortestDoesNotReturn(T, k, p, v, i, i + 2);
    }
    assert p != [];
    FrameFollows(T, tables, k, p, v);
    forall i | 0 <= i < |p|
      ensures Along(k, p)[i] != (k, v)
    {
      if i > 0 { ShortestDoesNotReturn(T, k, p, v, 0, i); }
    }
    StaysInFlight(tables, k, Along(k, p), (k, v));
    OneMoreCopy(tables, k, Along(k, p), k, v);
    copies := Along(k, p) + [(k, v)];
  }

  /** Every listed link joins what the links of `T` join. */
  ghost predicate ListsWithin(tables: map<Addr, seq<Addr>>, T: set<Edge>) {
    forall k, v :: k in tables && v in tables[k] ==> k != v && Connected(T, k, v)
  }

  ghost predicate ListsOnly(tables: map<Addr, seq<Addr>>, T: set<Edge>) {
    forall k, v :: k in tables && v in tables[k] ==> Adjacent(T, k, v)
  }

  /** Over lists that hold a tree at both ends, and whatever else at any one end: no frame comes to a
      node twice exactly when they hold nothing else. */
  lemma NeverTwiceBesideATree(T: set<Edge>, tables: map<Addr, seq<Addr>>)
    requires Acyclic(T) && OneName(T) && Covers(tables, T) && ListsWithin(tables, T)
    requires forall k :: k in tables ==> Ascending(Less, tables[k])
    ensures NeverTwice(tables) <==> ListsOnly(tables, T)
  {
    if ListsOnly(tables, T) {
      ExactListsAreTables(T, tables);
      NeverTwiceExactlyWhen(T, tables);
    } else {
      var k, v :| k in tables && v in tables[k] && !Adjacent(T, k, v);
      var copies := TwoWays(T, tables, k, v);
      assert Delivered(k, copies)[v] >= 2;
    }
  }

  lemma ExactListsAreTables(T: set<Edge>, tables: map<Addr, seq<Addr>>)
    requires Covers(tables, T) && ListsOnly(tables, T)
    requires forall k :: k in tables ==> Ascending(Less, tables[k])
    ensures Tables(tables, T)
  {
    hide Ascending;
    forall v | v in tables
      ensures IsTable(tables[v], v, T)
    {
      forall n
        ensures n in Elems(tables[v]) <==> n in Neighbors(v, T)
      {
        AdjacentIsNeighbor(v, n, T);
      }
    }
    forall e | e in T
      ensures e.a in tables && e.b in tables
    {
      assert Adjacent(T, e.a, e.b);
    }
  }

  /** Copies come from where the frame has been, along listed links. */
  lemma {:induction false} CopiesComeFromDelivered(
    tables: map<Addr, seq<Addr>>, s: Addr, copies: seq<(Addr, Addr)>, p: Addr, c: Addr)
    requires s in tables && FloodRun(tables, s, copies) && (p, c) in InFlight(tables, s, copies)
    ensures Delivered(s, copies)[p] >= 1 && p in tables && c in tables[p]
    decreases |copies|
  {
    hide InFlight, FloodRun, Delivered;
    if copies == [] {
      FloodStarts(tables, s);
    } else {
      var (q, d) := copies[|copies| - 1];
      LastCopy(tables, s, copies, q, d);
      if (p, c) in InFlight(tables, s, copies[..|copies| - 1]) {
        CopiesComeFromDelivered(tables, s, copies[..|copies| - 1], p, c);
      }
    }
  }

  /** A node that has the frame has passed it on to every node it lists, or is about to. */
  lemma {:induction false} PassedOnOrPending(
    tables: map<Addr, seq<Addr>>, s: Addr, copies: seq<(Addr, Addr)>, x: Addr, n: Addr)
    requires s in tables && FloodRun(tables, s, copies)
    requires Delivered(s, copies)[x] >= 1 && x in tables && n in tables[x]
    ensures Delivered(s, copies)[n] >= 1 || (x, n) in InFlight(tables, s, copies)
    decreases |copies|
  {
    hide InFlight, FloodRun, Delivered;
    if copies == [] {
      FloodStarts(tables, s);
    } else {
      var before := copies[..|copies| - 1];
      var (p, c) := copies[|copies| - 1];
      LastCopy(tables, s, copies, p, c);
      if Delivered(s, before)[x] >= 1 {
        PassedOnOrPending(tables, s, before, x, n);
      } else {
        CopiesComeFromDelivered(tables, s, before, p, c);
      }
    }
  }

  /** A flood that ends has been to every node that links listed at both ends lead to. */
  lemma FloodReachesAll(T: set<Edge>, tables: map<Addr, seq<Addr>>, s: Addr, copies: seq<(Addr, Addr)>, v: Addr)
    requires Covers(tables, T) && s in tables && FloodRun(tables, s, copies)
    requires InFlight(tables, s, copies) == multiset{} && Connected(T, s, v)
    ensures Delivered(s, copies)[v] >= 1
  {
    hide InFlight, FloodRun, Delivered, Connected;
    var inside := iset x | Delivered(s, copies)[x] >= 1;
    StartIsDelivered(s, copies);
    forall x, y | x in inside && Adjacent(T, x, y)
      ensures y in inside
    {
      PassedOnOrPending(tables, s, copies, x, y);
    }
    ConnectedStaysInside(T, inside, s, v);
  }

  /** And to no node that the listed links do not lead to. */
  lemma {:induction false} FloodStaysWithin(
    E: set<Edge>, tables: map<Addr, seq<Addr>>, s: Addr, copies: seq<(Addr, Addr)>, v: Addr)
    requires ListsWithin(tables, E) && s in tables && FloodRun(tables, s, copies)
    requires Delivered(s, copies)[v] >= 1
    ensures Connected(E, s, v)
    decreases |copies|
  {
    hide InFlight, FloodRun, Delivered, Connected;
    if copies == [] {
      FloodStarts(tables, s);
      ConnectedRefl(E, s);
    } else {
      var before := copies[..|copies| - 1];
      var (p, c) := copies[|copies| - 1];
      LastCopy(tables, s, copies, p, c);
      if Delivered(s, before)[v] >= 1 {
        FloodStaysWithin(E, tables, s, before, v);
      } else {
        CopiesComeFromDelivered(tables, s, before, p, c);
        FloodStaysWithin(E, tables, s, before, p);
        ConnectedTrans(E, s, p, c);
      }
    }
  }
}
