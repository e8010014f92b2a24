/** Which floods end: over lists that hold a tree at both ends, those that meet nothing else. Any other
    link they meet sends a frame round for ever. */
module FloodingEnds {
  import opened Graph
  import opened Forest
  import opened Flooding

  ghost function After<T>(c: seq<T>, i: nat): nat
    requires i < |c|
  {
    if i + 1 == |c| then 0 else i + 1
  }

  /** A way round along listed links that never turns straight back. */
  ghost predicate Circuit(tables: map<Addr, seq<Addr>>, c: seq<Addr>) {
    |c| >= 3 &&
    forall i :: 0 <= i < |c| ==>
      c[i] in tables && c[After(c, i)] in tables[c[i]] && c[After(c, After(c, i))] != c[i]
  }

  /** The copy that goes from place `i` to the next. */
  ghost function CopyAt(c: seq<Addr>, i: nat): (Addr, Addr)
    requires i < |c|
  {
    (c[i], c[After(c, i)])
  }

  /** Once a copy is on a circuit one always is: each delivery on it sends the next. */
  lemma {:induction false} CirclesForEver(
    tables: map<Addr, seq<Addr>>, s: Addr, copies: seq<(Addr, Addr)>, c: seq<Addr>, n: nat, i: nat) returns (j: nat)
    requires Circuit(tables, c) && FloodRun(tables, s, copies) && n <= |copies| && i < |c|
    requires CopyAt(c, i) in InFlight(tables, s, copies[..n])
    ensures j < |c| && CopyAt(c, j) in InFlight(tables, s, copies)
    decreases |copies|
  {
    hide InFlight, FloodRun, Delivered;
    if n == |copies| {
      assert copies[..n] == copies;
      j := i;
    } else {
      var m := |copies| - 1;
      var (p, d) := copies[m];
      LastCopy(tables, s, copies, p, d);
      assert copies[..m][..n] == copies[..n];
      j := CirclesForEver(tables, s, copies[..m], c, n, i);
      if CopyAt(c, j) == (p, d) {
        j := After(c, j);
        assert CopyAt(c, j) in Sent(tables, p, d);
      }
    }
  }

  lemma WalkStep(E: set<Edge>, u: Addr, p: seq<Addr>, v: Addr, i: nat)
    requires Walk(E, u, p, v) && i < |p|
    ensures Adjacent(E, At(u, p, i), At(u, p, i + 1))
  {
    WalkSplits(E, u, p, v, i);
    assert p[i..][0] == p[i];
  }

  /** The closed walk that a link from `k` to `v` and a walk back make. */
  ghost function Closed(k: Addr, v: Addr, p: seq<Addr>): seq<Addr>
    requires p != []
  {
    [k, v] + p[..|p| - 1]
  }

  lemma ClosedAt(k: Addr, v: Addr, p: seq<Addr>, j: nat)
    requires p != [] && 0 < j <= |p|
    ensures |Closed(k, v, p)| == |p| + 1 && Closed(k, v, p)[j] == At(v, p, j - 1) && Closed(k, v, p)[0] == k
  {
  }

  lemma ClosedVisitsOnce(E: set<Edge>, k: Addr, v: Addr, p: seq<Addr>, i: nat, j: nat)
    requires p != [] && Walk(E, v, p, k) && forall r :: Walk(E, v, r, k) ==> |p| <= |r|
    requires i < j <= |p|
    ensures Closed(k, v, p)[i] != Closed(k, v, p)[j]
  {
    EndsAt(E, v, p, k);
    ClosedAt(k, v, p, j);
    if i == 0 {
      ShortestDoesNotReturn(E, v, p, k, j - 1, |p|);
    } else {
      ClosedAt(k, v, p, i);
      ShortestDoesNotReturn(E, v, p, k, i - 1, j - 1);
    }
  }

  lemma ClosedIsListed(T: set<Edge>, tables: map<Addr, seq<Addr>>, k: Addr, v: Addr, p: seq<Addr>, i: nat)
    requires Covers(tables, T) && k in tables && v in tables[k] && p != [] && Walk(T, v, p, k) && i <= |p|
    ensures var c := Closed(k, v, p); c[i] in tables && c[After(c, i)] in tables[c[i]]
  {
    if i == 0 {
      ClosedAt(k, v, p, 1);
    } else {
      EndsAt(T, v, p, k);
      WalkStep(T, v, p, k, i - 1);
      ClosedAt(k, v, p, i);
      if i < |p| { ClosedAt(k, v, p, i + 1); }
    }
  }

  lemma VisitsOnce(c: seq<Addr>)
    requires |c| >= 3 && forall i, j :: 0 <= i < j < |c| ==> c[i] != c[j]
    ensures forall i :: 0 <= i < |c| ==> c[After(c, After(c, i))] != c[i]
  {
  }

  /** A listed link beside the tree, and the way back over the tree. */
  lemma WayRound(T: set<Edge>, tables: map<Addr, seq<Addr>>, k: Addr, v: Addr) returns (c: seq<Addr>)
    requires Covers(tables, T) && k in tables && v in tables[k] && k != v
    requires !Adjacent(T, k, v) && Connected(T, k, v)
    ensures Circuit(tables, c) && CopyAt(c, 0) == (k, v)
  {
    ConnectedSym(T, k, v);
    var any :| Walk(T, v, any, k);
    var p := ShortestWalk(T, v, k, any);
    EndsAt(T, v, p, k);
    WalkStep(T, v, p, k, 0);
    AdjacentEitherWay(T, k, v);
    ClosedAt(k, v, p, 1);
    c := Closed(k, v, p);
    forall i, j | 0 <= i < j < |c|
      ensures c[i] != c[j]
    {
      ClosedVisitsOnce(T, k, v, p, i, j);
    }
    hide Walk, Adjacent, Closed, At;
    VisitsOnce(c);
    forall i | 0 <= i < |c|
      ensures c[i] in tables && c[After(c, i)] in tables[c[i]]
    {
      ClosedIsListed(T, tables, k, v, p, i);
    }
  }

  lemma EndsAt(E: set<Edge>, u: Addr, p: seq<Addr>, v: Addr)
    requires Walk(E, u, p, v)
    ensures At(u, p, |p|) == v
  {
    WalkSplits(E, u, p, v, |p|);
  }

  /** How a node first got the frame: it is the source, or a copy to it was once in flight. */
  lemma {:induction false} FirstArrival(
    tables: map<Addr, seq<Addr>>, s: Addr, copies: seq<(Addr, Addr)>, k: Addr) returns (n: nat, p: Addr)
    requires s in tables && FloodRun(tables, s, copies) && Delivered(s, copies)[k] >= 1
    ensures n <= |copies|
    ensures forall v :: k in tables && v in tables[k] && v != p ==> (k, v) in InFlight(tables, s, copies[..n])
    ensures k == s == p || (n > 0 && (p, k) in InFlight(tables, s, copies[..n - 1]) && p in tables && k in tables[p])
    decreases |copies|
  {
    hide InFlight, FloodRun, Delivered;
    if copies == [] {
      FloodStarts(tables, s);
      n, p := 0, s;
    } else {
      var m := |copies| - 1;
      var (q, d) := copies[m];
      LastCopy(tables, s, copies, q, d);
      if Delivered(s, copies[..m])[k] >= 1 {
        n, p := FirstArrival(tables, s, copies[..m], k);
        assert copies[..m][..n] == copies[..n];
        if n > 0 { assert copies[..m][..n - 1] == copies[..n - 1]; }
      } else {
        assert d == k;
        n, p := m + 1, q;
        assert copies[..n] == copies;
        CopiesComeFromDelivered(tables, s, copies[..m], q, k);
      }
    }
  }

  /** Where the frame has come to a node that lists a link beside the tree, it circles for ever. */
  lemma NeverEndsOnceThere(
    T: set<Edge>, tables: map<Addr, seq<Addr>>, s: Addr, copies: seq<(Addr, Addr)>, k: Addr, v: Addr)
    requires Covers(tables, T) && s in tables && FloodRun(tables, s, copies) && Delivered(s, copies)[k] >= 1
    requires k in tables && v in tables[k] && k != v && !Adjacent(T, k, v) && Connected(T, k, v)
    ensures InFlight(tables, s, copies) != multiset{}
  {
    hide InFlight, FloodRun, Delivered, Covers, Adjacent, Connected, Circuit;
    var n, p := FirstArrival(tables, s, copies, k);
    if p != v {
      var c := WayRound(T, tables, k, v);
      CircuitHasPlaces(tables, c);
      var j := CirclesForEver(tables, s, copies, c, n, 0);
    } else {
      ConnectedSym(T, k, v);
      AdjacentEitherWay(T, k, v);
      var c := WayRound(T, tables, v, k);
      CircuitHasPlaces(tables, c);
      var j := CirclesForEver(tables, s, copies, c, n - 1, 0);
    }
  }

  lemma CircuitHasPlaces(tables: map<Addr, seq<Addr>>, c: seq<Addr>)
    requires Circuit(tables, c)
    ensures |c| > 0
  {
  }

  lemma AdjacentEitherWay(T: set<Edge>, u: Addr, v: Addr)
    ensures Adjacent(T, u, v) <==> Adjacent(T, v, u)
  {
  }

  /** No flood that can get to such a node ever ends. */
  lemma FloodNeverEnds(
    T: set<Edge>, tables: map<Addr, seq<Addr>>, s: Addr, copies: seq<(Addr, Addr)>, k: Addr, v: Addr)
    requires Covers(tables, T) && s in tables && FloodRun(tables, s, copies) && Connected(T, s, k)
    requires k in tables && v in tables[k] && k != v && !Adjacent(T, k, v) && Connected(T, k, v)
    ensures InFlight(tables, s, copies) != multiset{}
  {
    hide InFlight, FloodRun, Delivered, Covers, Adjacent, Connected;
    if InFlight(tables, s, copies) == multiset{} {
      FloodReachesAll(T, tables, s, copies, k);
      NeverEndsOnceThere(T, tables, s, copies, k, v);
    }
  }

  /** A flood that has nothing left to deliver. */
  ghost predicate Ended(tables: map<Addr, seq<Addr>>, s: Addr, copies: seq<(Addr, Addr)>) {
    FloodRun(tables, s, copies) && InFlight(tables, s, copies) == multiset{}
  }

  /** Around `s`, the lists hold links of `T` only. */
  ghost predicate OnlyAround(tables: map<Addr, seq<Addr>>, T: set<Edge>, s: Addr) {
    forall k, v :: k in tables && v in tables[k] && Connected(T, s, k) ==> Adjacent(T, k, v)
  }

  lemma OnlyTreeLinksAreListed(T: set<Edge>, tables: map<Addr, seq<Addr>>, s: Addr)
    requires Covers(tables, T) && OnlyAround(tables, T, s) && s in tables
    ensures ListsFrom(tables, T, s)
  {
  }

  lemma ComponentIsListed(T: set<Edge>, tables: map<Addr, seq<Addr>>, s: Addr, x: Addr)
    requires Covers(tables, T) && s in tables && Connected(T, s, x)
    ensures x in tables
  {
    ConnectedEndpoint(T, s, x);
    if x in Endpoints(T) {
      var e :| e in T && (x == e.a || x == e.b);
      assert Adjacent(T, e.a, e.b);
    }
  }

  /** Over a tree, each delivery is to a new node, and a flood has ended when it has been to them all. */
  lemma FloodCountsDown(T: set<Edge>, tables: map<Addr, seq<Addr>>, s: Addr, copies: seq<(Addr, Addr)>)
    requires Acyclic(T) && Covers(tables, T) && OnlyAround(tables, T, s) && s in tables
    requires FloodRun(tables, s, copies)
    ensures |copies| < |ComponentOf(tables.Keys, T, s)|
    ensures Ended(tables, s, copies) <==> |copies| + 1 == |ComponentOf(tables.Keys, T, s)|
  {
    hide FloodRun, InFlight, Delivered, Covers, OnlyAround, Boundary, Acyclic;
    OnlyTreeLinksAreListed(T, tables, s);
    var D, F := SpreadsOverLinks(T, tables, s, copies);
    var all := ComponentOf(tables.Keys, T, s);
    forall x | x in D
      ensures x in all
    {
      ConnectedMono(Within(T, D), T, s, x);
      ComponentIsListed(T, tables, s, x);
    }
    assert |all - D| == |all| - |D|;
    if Ended(tables, s, copies) {
      forall x | x in all
        ensures x in D
      {
        FloodReachesAll(T, tables, s, copies, x);
      }
      assert all == D;
    }
    if |copies| + 1 == |all| {
      assert all - D == {};
      assert forall x :: x in all ==> x in D;
      if F != {} {
        var copy :| copy in F;
        InBoundary(T, D, copy.0, copy.1);
        ReachedIsConnected(T, s, D, copy.0, copy.1);
        ComponentIsListed(T, tables, s, copy.1);
      }
    }
  }

  /** There any flood can be seen to its end. */
  lemma {:induction false} FloodCompletes(
    T: set<Edge>, tables: map<Addr, seq<Addr>>, s: Addr, copies: seq<(Addr, Addr)>) returns (more: seq<(Addr, Addr)>)
    requires Acyclic(T) && Covers(tables, T) && OnlyAround(tables, T, s) && s in tables
    requires FloodRun(tables, s, copies)
    ensures copies <= more && Ended(tables, s, more)
    decreases |ComponentOf(tables.Keys, T, s)| - |copies|
  {
    hide FloodRun, InFlight, Delivered, Covers, OnlyAround, Acyclic;
    FloodCountsDown(T, tables, s, copies);
    if InFlight(tables, s, copies) == multiset{} {
      more := copies;
    } else {
      var copy :| copy in InFlight(tables, s, copies);
      OneMoreCopy(tables, s, copies, copy.0, copy.1);
      more := FloodCompletes(T, tables, s, copies + [copy]);
    }
  }

  /** Over lists that hold a tree at both ends, and whatever else at any one end: a flood ends if and only
      if the lists around its source hold nothing else. */
  lemma EndsBesideATree(T: set<Edge>, tables: map<Addr, seq<Addr>>, s: Addr)
    requires Acyclic(T) && Covers(tables, T) && ListsWithin(tables, T) && s in tables
    ensures (exists copies :: Ended(tables, s, copies)) <==> OnlyAround(tables, T, s)
  {
    hide FloodRun, InFlight, Delivered, Covers, Acyclic, Connected, Adjacent;
    if OnlyAround(tables, T, s) {
      FloodStarts(tables, s);
      var copies := FloodCompletes(T, tables, s, []);
    } else {
      var k, v :| k in tables && v in tables[k] && Connected(T, s, k) && !Adjacent(T, k, v);
      forall copies | FloodRun(tables, s, copies)
        ensures !Ended(tables, s, copies)
      {
        FloodNeverEnds(T, tables, s, copies, k, v);
      }
    }
  }

  /** Whatever has been delivered, a flood can go on to be delivered along any walk of listed links. */
  lemma {:induction false} FloodGoesOn(
    T: set<Edge>, tables: map<Addr, seq<Addr>>, s: Addr, copies: seq<(Addr, Addr)>, u: Addr, p: seq<Addr>, v: Addr)
    returns (more: seq<(Addr, Addr)>)
    requires Covers(tables, T) && s in tables && FloodRun(tables, s, copies)
    requires Delivered(s, copies)[u] >= 1 && Walk(T, u, p, v)
    ensures copies <= more && FloodRun(tables, s, more) && Delivered(s, more)[v] >= 1
    decreases |p|
  {
    hide FloodRun, InFlight, Delivered, Covers;
    more := copies;
    if p != [] {
      assert u in tables && p[0] in tables[u] by { CoversMeans(tables, T, u, p[0]); }
      PassedOnOrPending(tables, s, copies, u, p[0]);
      if Delivered(s, copies)[p[0]] == 0 {
        OneMoreCopy(tables, s, copies, u, p[0]);
        more := copies + [(u, p[0])];
      }
      more := FloodGoesOn(T, tables, s, more, p[0], p[1..], v);
    }
  }

  lemma CoversMeans(tables: map<Addr, seq<Addr>>, T: set<Edge>, x: Addr, n: Addr)
    requires Covers(tables, T) && Adjacent(T, x, n)
    ensures x in tables && n in tables && n in tables[x]
  {
  }

  /** A flood can still come to `v`. */
  ghost predicate CanReach(tables: map<Addr, seq<Addr>>, s: Addr, copies: seq<(Addr, Addr)>, v: Addr) {
    exists more :: copies <= more && FloodRun(tables, s, more) && Delivered(s, more)[v] >= 1
  }

  /** Ended or not, a flood can come to exactly the nodes that the links connect to its source. */
  lemma FloodCanReachExactly(
    T: set<Edge>, tables: map<Addr, seq<Addr>>, s: Addr, copies: seq<(Addr, Addr)>, v: Addr)
    requires Covers(tables, T) && ListsWithin(tables, T) && s in tables && FloodRun(tables, s, copies)
    ensures CanReach(tables, s, copies, v) <==> Connected(T, s, v)
  {
    hide FloodRun, InFlight, Delivered, Covers, ListsWithin, Walk;
    if Connected(T, s, v) {
      var p :| Walk(T, s, p, v);
      StartIsDelivered(s, copies);
      var more := FloodGoesOn(T, tables, s, copies, s, p, v);
    }
    if CanReach(tables, s, copies, v) {
      var more :| copies <= more && FloodRun(tables, s, more) && Delivered(s, more)[v] >= 1;
      FloodStaysWithin(T, tables, s, more, v);
    }
  }
}
