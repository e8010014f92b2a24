/** The disjoint-set forest of the spanning-tree computation: path compression, union by rank, and
    keys registered on first use. */
module UnionFind {
  import opened Prelude
  import opened Graph
  import opened Forest

  ghost function Pow2(n: nat): nat {
    if n == 0 then 1 else 2 * Pow2(n - 1)
  }

  /** floor(log2 n); 0 for n == 0. */
  ghost function Log2(n: nat): nat {
    if n <= 1 then 0 else 1 + Log2(n / 2)
  }

  lemma {:induction false} Pow2BelowLog2(k: nat, n: nat)
    requires Pow2(k) <= n
    ensures k <= Log2(n)
  {
    if k > 0 {
      Pow2Positive(k - 1);
      Pow2BelowLog2(k - 1, n / 2);
    }
  }

  lemma {:induction false} Pow2Positive(n: nat)
    ensures Pow2(n) >= 1
  {
    if n > 0 { Pow2Positive(n - 1); }
  }

  lemma {:induction false} Log2Mono(m: nat, n: nat)
    requires m <= n
    ensures Log2(m) <= Log2(n)
  {
    if m > 1 {
      Log2Mono(m / 2, n / 2);
    }
  }

  lemma Log2OfSubset<T>(a: set<T>, b: set<T>)
    requires a <= b
    ensures Log2(|a|) <= Log2(|b|)
  {
    SubsetSize(a, b);
    Log2Mono(|a|, |b|);
  }

  /** Reading a Go map: a missing rank is zero. */
  function RankIn(rank: map<Addr, int>, x: Addr): int {
    if x in rank then rank[x] else 0
  }

  /** A key never registered is its own representative. */
  ghost function RootIn(root: map<Addr, Addr>, x: Addr): Addr {
    if x in root then root[x] else x
  }

  /** The members of the class a representative stands for. */
  ghost function ClassIn(root: map<Addr, Addr>, r: Addr): set<Addr> {
    set x | x in root && root[x] == r
  }

  /** One link of a parent chain: it stays in the class, and ranks rise strictly along it. */
  ghost predicate ChainAt(parent: map<Addr, Addr>, rank: map<Addr, int>, root: map<Addr, Addr>, x: Addr)
    requires x in parent && root.Keys == parent.Keys
  {
    && parent[x] in parent && root[parent[x]] == root[x]
    && root[x] in parent && parent[root[x]] == root[x] && root[root[x]] == root[x]
    && (parent[x] == x ==> root[x] == x)
    && (parent[x] != x ==> RankIn(rank, x) < RankIn(rank, parent[x]))
    && (root[x] != x ==> RankIn(rank, x) < RankIn(rank, root[x]))
  }

  ghost predicate Chains(parent: map<Addr, Addr>, rank: map<Addr, int>, root: map<Addr, Addr>) {
    && root.Keys == parent.Keys && rank.Keys <= parent.Keys
    && (forall x :: x in rank ==> rank[x] >= 0)
    && (forall x {:trigger ChainAt(parent, rank, root, x)} :: x in parent ==> ChainAt(parent, rank, root, x))
  }

  /** Union by rank: a root of rank k stands for at least 2^k keys. */
  ghost predicate Balanced(rank: map<Addr, int>, root: map<Addr, Addr>) {
    forall r {:trigger ClassIn(root, r)} :: r in root && root[r] == r ==>
      RankIn(rank, r) >= 0 && Pow2(RankIn(rank, r)) <= |ClassIn(root, r)|
  }

  /** The classes are the components of the graph of all pairs joined so far. */
  ghost predicate Partition(root: map<Addr, Addr>, joined: set<Edge>) {
    && Endpoints(joined) <= root.Keys
    && forall x, y {:trigger Connected(joined, x, y)} :: x in root && y in root ==>
         (root[x] == root[y] <==> Connected(joined, x, y))
  }

  /** The classes once the root `lo` hangs below the root `hi`. */
  ghost function Merged(root: map<Addr, Addr>, lo: Addr, hi: Addr): map<Addr, Addr> {
    map x | x in root :: if root[x] == lo then hi else root[x]
  }

  lemma LinkKeepsChains(parent: map<Addr, Addr>, rank: map<Addr, int>, root: map<Addr, Addr>,
                        lo: Addr, hi: Addr, rank': map<Addr, int>)
    requires Chains(parent, rank, root)
    requires lo in root && hi in root && root[lo] == lo && root[hi] == hi && lo != hi
    requires rank' == rank || rank' == rank[hi := RankIn(rank, hi) + 1]
    requires RankIn(rank', lo) < RankIn(rank', hi)
    ensures Chains(parent[lo := hi], rank', Merged(root, lo, hi))
  {
    var parent', root' := parent[lo := hi], Merged(root, lo, hi);
    assert ChainAt(parent, rank, root, lo) && ChainAt(parent, rank, root, hi);
    forall x | x in parent'
      ensures ChainAt(parent', rank', root', x)
    {
      assert ChainAt(parent, rank, root, x);
    }
  }

  lemma CompressKeepsChains(parent: map<Addr, Addr>, rank: map<Addr, int>, root: map<Addr, Addr>, x: Addr)
    requires Chains(parent, rank, root) && x in root
    ensures root[x] in root && root[root[x]] == root[x]
    ensures Chains(parent[x := root[x]], rank, root)
  {
    var parent' := parent[x := root[x]];
    assert ChainAt(parent, rank, root, x);
    assert ChainAt(parent, rank, root, root[x]);
    forall y | y in parent'
      ensures ChainAt(parent', rank, root, y)
    {
      assert ChainAt(parent, rank, root, y);
    }
  }

  lemma RegisterKeepsChains(parent: map<Addr, Addr>, rank: map<Addr, int>, root: map<Addr, Addr>, x: Addr)
    requires Chains(parent, rank, root) && x !in root
    ensures x !in rank
    ensures Chains(parent[x := x], rank, root[x := x])
    ensures forall y :: y in root ==> root[y] != x
  {
    var parent', root' := parent[x := x], root[x := x];
    assert root'.Keys == parent'.Keys;
    forall y | y in parent
      ensures root[y] != x && ChainAt(parent', rank, root', y)
    {
      assert ChainAt(parent, rank, root, y);
    }
    assert ChainAt(parent', rank, root', x);
  }

  lemma LinkKeepsBalance(rank: map<Addr, int>, root: map<Addr, Addr>, lo: Addr, hi: Addr, rank': map<Addr, int>)
    requires Balanced(rank, root)
    requires lo in root && hi in root && root[lo] == lo && root[hi] == hi && lo != hi
    requires rank' == rank || (rank' == rank[hi := RankIn(rank, hi) + 1] && RankIn(rank, lo) == RankIn(rank, hi))
    ensures Balanced(rank', Merged(root, lo, hi))
  {
    var root' := Merged(root, lo, hi);
    assert ClassIn(root', hi) == ClassIn(root, lo) + ClassIn(root, hi);
    assert ClassIn(root, lo) !! ClassIn(root, hi);
    assert |ClassIn(root', hi)| == |ClassIn(root, lo)| + |ClassIn(root, hi)|;
    forall r | r in root' && root'[r] == r && r != hi
      ensures ClassIn(root', r) == ClassIn(root, r)
    {
    }
  }

  lemma LinkMergesClasses(root: map<Addr, Addr>, joined: set<Edge>, e: Edge, lo: Addr, hi: Addr)
    requires Partition(root, joined) && e.a in root && e.b in root
    requires (root[e.a] == lo && root[e.b] == hi) || (root[e.a] == hi && root[e.b] == lo)
    ensures Partition(Merged(root, lo, hi), joined + {e})
  {
    forall x, y | x in root && y in root
      ensures Connected(joined + {e}, x, y) <==> Merged(root, lo, hi)[x] == Merged(root, lo, hi)[y]
    {
      ConnectedAdd(joined, e, x, y);
    }
  }

  lemma RejoiningChangesNothing(root: map<Addr, Addr>, joined: set<Edge>, e: Edge)
    requires Partition(root, joined) && e.a in root && e.b in root && root[e.a] == root[e.b]
    ensures Partition(root, joined + {e})
  {
    AddConnectedEdge(joined, e);
  }

  lemma SingletonAdded(rank: map<Addr, int>, root: map<Addr, Addr>, joined: set<Edge>, x: Addr)
    requires Balanced(rank, root) && Partition(root, joined)
    requires x !in root && x !in rank && forall y :: y in root ==> root[y] != x
    ensures Balanced(rank, root[x := x]) && Partition(root[x := x], joined)
  {
    var root' := root[x := x];
    assert ClassIn(root', x) == {x};
    forall r | r in root
      ensures ClassIn(root', r) == ClassIn(root, r)
    {
    }
    forall y | y in root
      ensures !Connected(joined, x, y) && !Connected(joined, y, x)
    {
      if Connected(joined, x, y) { ConnectedSym(joined, x, y); }
      if Connected(joined, y, x) { ConnectedEndpoint(joined, y, x); }
    }
    ConnectedRefl(joined, x);
  }

  /** A chain is no longer than the logarithm of the number of keys. */
  lemma RankIsLogarithmic(rank: map<Addr, int>, root: map<Addr, Addr>, r: Addr)
    requires Balanced(rank, root) && r in root && root[r] == r
    ensures 0 <= RankIn(rank, r) <= Log2(|root.Keys|)
  {
    SubsetSize(ClassIn(root, r), root.Keys);
    Pow2BelowLog2(RankIn(rank, r), |root.Keys|);
  }

  class DisjointSets {
    var parent: map<Addr, Addr>
    var rank: map<Addr, int>
    ghost var root: map<Addr, Addr>    // the representative each parent chain ends in
    ghost var joined: set<Edge>        // every pair `Union` was called with
    ghost var finds: nat               // invocations of `Find`, recursive ones included

    ghost predicate Valid()
      reads this
    {
      && root.Keys == parent.Keys
      && Chains(parent, rank, root) && Balanced(rank, root) && Partition(root, joined)
    }

    /** The relation callers see; a key never registered is alone. */
    ghost predicate Same(x: Addr, y: Addr)
      reads this
    {
      RootIn(root, x) == RootIn(root, y)
    }

    /** How far a key is from the top of its chain, in ranks. */
    ghost function Climb(x: Addr): nat
      requires Chains(parent, rank, root)
      reads this
    {
      assert x in root ==> ChainAt(parent, rank, root, x);
      if x in root then RankIn(rank, root[x]) - RankIn(rank, x) else 0
    }

    constructor (nodes: seq<Addr>)
      ensures Valid() && parent.Keys == Elems(nodes) && joined == {} && finds == 0
      ensures forall x, y :: Same(x, y) <==> x == y
    {
      var p := map[];
      for i := 0 to |nodes|
        invariant p.Keys == Elems(nodes[..i])
        invariant forall x :: x in p ==> p[x] == x
      {
        ElemsOfSnoc(nodes[..i], nodes[i]);
        assert nodes[..i + 1] == nodes[..i] + [nodes[i]];
        p := p[nodes[i] := nodes[i]];
      }
      assert nodes[..|nodes|] == nodes;
      parent, rank := p, map[];
      root, joined, finds := p, {}, 0;
      new;
      forall x | x in root
        ensures ClassIn(root, x) == {x}
      {
      }
      forall x, y
        ensures Connected({}, x, y) <==> x == y
      {
        ConnectedWithoutEdges(x, y);
      }
    }

    /** Path compression changes parents, never classes; it costs one call per rank climbed. */
    method Find(x: Addr) returns (r: Addr)
      requires Valid()
      modifies this
      ensures Valid() && joined == old(joined) && rank == old(rank)
      ensures root.Keys == old(root.Keys) + {x}
      ensures r == RootIn(old(root), x)
      ensures forall y {:trigger RootIn(root, y)} :: RootIn(root, y) == RootIn(old(root), y)
      ensures x in root && r in root && root[x] == r && root[r] == r
      ensures finds <= old(finds) + old(Climb(x)) + 1
      ensures finds <= old(finds) + Log2(|root.Keys|) + 1
      decreases Climb(x)
    {
      hide Chains, Balanced, Partition;
      finds := finds + 1;
      if x !in parent {
        RegisterKeepsChains(parent, rank, root, x);
        SingletonAdded(rank, root, joined, x);
        parent := parent[x := x];
        root := root[x := x];
        return x;
      }
      OneStepUp(x);
      if parent[x] != x {
        var top := Find(parent[x]);
        assert root.Keys == old(root.Keys) && RootIn(root, x) == RootIn(old(root), x);
        CompressKeepsChains(parent, rank, root, x);
        parent := parent[x := top];
      }
      return parent[x];
    }

    /** What one link of a chain tells `Find`. */
    lemma OneStepUp(x: Addr)
      requires Valid() && x in root
      ensures root[x] in root && root[root[x]] == root[x]
      ensures parent[x] == x ==> root[x] == x
      ensures parent[x] != x ==> parent[x] in root && root[parent[x]] == root[x] && Climb(parent[x]) < Climb(x)
      ensures Climb(x) <= Log2(|root.Keys|)
    {
      assert ChainAt(parent, rank, root, x);
      assert ChainAt(parent, rank, root, parent[x]);
      RankIsLogarithmic(rank, root, root[x]);
    }

    /** The two lookups `Union` starts with. */
    method FindBoth(a: Addr, b: Addr) returns (ra: Addr, rb: Addr)
      requires Valid()
      modifies this
      ensures Valid() && joined == old(joined) && rank == old(rank)
      ensures root.Keys == old(root.Keys) + {a, b}
      ensures a in root && root[a] == ra && b in root && root[b] == rb
      ensures ra in root && root[ra] == ra && rb in root && root[rb] == rb
      ensures ra == rb <==> old(Same(a, b))
      ensures finds <= old(finds) + 2 * (Log2(|root.Keys|) + 1)
    {
      hide Chains, Balanced, Partition;
      ra := Find(a);
      assert ra == RootIn(root, a) == RootIn(root, ra);
      Log2OfSubset(root.Keys, root.Keys + {b});
      rb := Find(b);
      assert ra == RootIn(root, a) == RootIn(root, ra);
    }

    /** True exactly when the classes were distinct; then, and only then, they are merged. */
    method Union(a: Addr, b: Addr) returns (merged: bool)
      requires Valid()
      modifies this
      ensures Valid() && joined == old(joined) + {Edge(a, b)}
      ensures root.Keys == old(root.Keys) + {a, b}
      ensures merged <==> !old(Same(a, b))
      ensures finds <= old(finds) + 2 * (Log2(|root.Keys|) + 1)
    {
      var ra, rb := FindBoth(a, b);
      merged := ra != rb;
      if !merged {
        RejoiningChangesNothing(root, joined, Edge(a, b));
        joined := joined + {Edge(a, b)};
      } else if RankIn(rank, ra) < RankIn(rank, rb) {
        Attach(Edge(a, b), ra, rb, false);
      } else if RankIn(rank, ra) > RankIn(rank, rb) {
        Attach(Edge(a, b), rb, ra, false);
      } else {
        Attach(Edge(a, b), rb, ra, true);
      }
    }

    /** Hangs the root `lo` below the root `hi`; `grow` is the branch that also raises a rank. */
    method Attach(ghost e: Edge, lo: Addr, hi: Addr, grow: bool)
      requires Valid() && e.a in root && e.b in root && lo != hi
      requires lo in root && hi in root && root[lo] == lo && root[hi] == hi
      requires (root[e.a] == lo && root[e.b] == hi) || (root[e.a] == hi && root[e.b] == lo)
      requires if grow then RankIn(rank, lo) == RankIn(rank, hi) else RankIn(rank, lo) < RankIn(rank, hi)
      modifies this
      ensures Valid() && joined == old(joined) + {e} && finds == old(finds)
      ensures root.Keys == old(root.Keys)
    {
      Link(e, lo, hi, if grow then rank[hi := RankIn(rank, hi) + 1] else rank);
      parent := parent[lo := hi];
      if grow {
        rank := rank[hi := RankIn(rank, hi) + 1];
      }
      root := Merged(root, lo, hi);
      joined := joined + {e};
    }

    /** What callers see, whatever the calls before: the components of the pairs joined so far. */
    lemma SameIsConnected(x: Addr, y: Addr)
      requires Valid()
      ensures Same(x, y) <==> Connected(joined, x, y)
    {
      ConnectedRefl(joined, x);
      assert x in root ==> ChainAt(parent, rank, root, x);
      assert y in root ==> ChainAt(parent, rank, root, y);
      if Connected(joined, x, y) {
        ConnectedEndpoint(joined, x, y);
        ConnectedSym(joined, x, y);
        ConnectedEndpoint(joined, y, x);
      }
    }

    lemma Link(e: Edge, lo: Addr, hi: Addr, rank': map<Addr, int>)
      requires Valid() && e.a in root && e.b in root && lo != hi
      requires lo in root && hi in root && root[lo] == lo && root[hi] == hi
      requires (root[e.a] == lo && root[e.b] == hi) || (root[e.a] == hi && root[e.b] == lo)
      requires rank' == rank || (rank' == rank[hi := RankIn(rank, hi) + 1] && RankIn(rank, lo) == RankIn(rank, hi))
      requires RankIn(rank', lo) < RankIn(rank', hi)
      ensures Chains(parent[lo := hi], rank', Merged(root, lo, hi))
      ensures Balanced(rank', Merged(root, lo, hi))
      ensures Partition(Merged(root, lo, hi), joined + {e})
    {
      LinkKeepsChains(parent, rank, root, lo, hi, rank');
      LinkKeepsBalance(rank, root, lo, hi, rank');
      LinkMergesClasses(root, joined, e, lo, hi);
    }
  }
}
