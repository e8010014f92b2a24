/** Undirected graphs over overlay addresses, and connectivity by explicit walks. */
module Graph {
  import opened Order

  type Addr = string

  datatype Edge = Edge(a: Addr, b: Addr)

  /** The comparison both `sort.Slice` calls use: (A, B) lexicographically. */
  predicate Before(e: Edge, f: Edge) {
    if e.a != f.a then Less(e.a, f.a) else Less(e.b, f.b)
  }

  lemma EdgesAreTotal()
    ensures StrictTotal(Before)
  {
    forall x: Edge, y: Edge
      ensures !Before(x, x) && (x == y || Before(x, y) || Before(y, x))
    {
      LessTotal(x.a, y.a);
      LessTotal(x.b, y.b);
    }
    forall x: Edge, y: Edge, z: Edge | Before(x, y) && Before(y, z)
      ensures Before(x, z)
    {
      BeforeTransitive(x, y, z);
    }
  }

  lemma BeforeTransitive(x: Edge, y: Edge, z: Edge)
    requires Before(x, y) && Before(y, z)
    ensures Before(x, z)
  {
    LessTotal(x.a, y.a);
    LessTotal(y.a, z.a);
    if x.a == y.a == z.a {
      LessTransitive(x.b, y.b, z.b);
    } else if x.a != y.a && y.a != z.a {
      LessTransitive(x.a, y.a, z.a);
      LessTotal(x.a, z.a);
    }
  }

  lemma BeforeTotal(x: Edge, y: Edge)
    ensures !Before(x, x)
    ensures x == y || Before(x, y) || Before(y, x)
    ensures !(Before(x, y) && Before(y, x))
  {
    EdgesAreTotal();
    assert !Before(x, x) && (x == y || Before(x, y) || Before(y, x));
    if Before(x, y) && Before(y, x) {
      BeforeTransitive(x, y, x);
    }
  }

  ghost predicate Adjacent(E: set<Edge>, u: Addr, v: Addr) {
    Edge(u, v) in E || Edge(v, u) in E
  }

  /** `p` lists the nodes visited after `u`, the last of them `v`. */
  ghost predicate Walk(E: set<Edge>, u: Addr, p: seq<Addr>, v: Addr)
    decreases |p|
  {
    if p == [] then u == v else Adjacent(E, u, p[0]) && Walk(E, p[0], p[1..], v)
  }

  ghost predicate Connected(E: set<Edge>, u: Addr, v: Addr) {
    exists p :: Walk(E, u, p, v)
  }

  /** Nothing connected to a member of a set closed under adjacency lies outside it. */
  lemma {:induction false} WalkStaysInside(E: set<Edge>, inside: iset<Addr>, u: Addr, p: seq<Addr>, v: Addr)
    requires forall x, y :: x in inside && Adjacent(E, x, y) ==> y in inside
    requires u in inside && Walk(E, u, p, v)
    ensures v in inside
    decreases |p|
  {
    if p != [] {
      WalkStaysInside(E, inside, p[0], p[1..], v);
    }
  }

  lemma ConnectedStaysInside(E: set<Edge>, inside: iset<Addr>, u: Addr, v: Addr)
    requires forall x, y :: x in inside && Adjacent(E, x, y) ==> y in inside
    requires u in inside && Connected(E, u, v)
    ensures v in inside
  {
    var p :| Walk(E, u, p, v);
    WalkStaysInside(E, inside, u, p, v);
  }

  lemma ConnectedRefl(E: set<Edge>, u: Addr)
    ensures Connected(E, u, u)
  {
    assert Walk(E, u, [], u);
  }

  lemma ConnectedStep(E: set<Edge>, u: Addr, v: Addr)
    requires Adjacent(E, u, v)
    ensures Connected(E, u, v)
  {
    assert Walk(E, v, [v][1..], v);
    assert Walk(E, u, [v], v);
  }

  lemma {:induction false} WalkConcat(E: set<Edge>, u: Addr, p: seq<Addr>, v: Addr, q: seq<Addr>, w: Addr)
    requires Walk(E, u, p, v) && Walk(E, v, q, w)
    ensures Walk(E, u, p + q, w)
    decreases |p|
  {
    if p == [] {
      assert p + q == q;
    } else {
      WalkConcat(E, p[0], p[1..], v, q, w);
      assert (p + q)[1..] == p[1..] + q;
    }
  }

  lemma ConnectedTrans(E: set<Edge>, u: Addr, v: Addr, w: Addr)
    requires Connected(E, u, v) && Connected(E, v, w)
    ensures Connected(E, u, w)
  {
    var p :| Walk(E, u, p, v);
    var q :| Walk(E, v, q, w);
    WalkConcat(E, u, p, v, q, w);
  }

  lemma ConnectedSym(E: set<Edge>, u: Addr, v: Addr)
    requires Connected(E, u, v)
    ensures Connected(E, v, u)
  {
    var inside := iset x | Connected(E, x, u);
    ConnectedRefl(E, u);
    forall x, y | x in inside && Adjacent(E, x, y)
      ensures y in inside
    {
      ConnectedStep(E, y, x);
      ConnectedTrans(E, y, x, u);
    }
    ConnectedStaysInside(E, inside, u, v);
  }

  /** If `F` joins the ends of every edge of `E`, it joins whatever `E` joins. */
  lemma ConnectedReplace(E: set<Edge>, F: set<Edge>, u: Addr, v: Addr)
    requires forall e :: e in E ==> Connected(F, e.a, e.b)
    requires Connected(E, u, v)
    ensures Connected(F, u, v)
  {
    var inside := iset x | Connected(F, u, x);
    ConnectedRefl(F, u);
    forall x, y | x in inside && Adjacent(E, x, y)
      ensures y in inside
    {
      if Edge(x, y) in E {
        assert Connected(F, Edge(x, y).a, Edge(x, y).b);
      } else {
        assert Connected(F, Edge(y, x).a, Edge(y, x).b);
        ConnectedSym(F, y, x);
      }
      ConnectedTrans(F, u, x, y);
    }
    ConnectedStaysInside(E, inside, u, v);
  }

  lemma ConnectedMono(E: set<Edge>, F: set<Edge>, u: Addr, v: Addr)
    requires E <= F
    requires Connected(E, u, v)
    ensures Connected(F, u, v)
  {
    forall e | e in E
      ensures Connected(F, e.a, e.b)
    {
      ConnectedStep(F, e.a, e.b);
    }
    ConnectedReplace(E, F, u, v);
  }

  /** What one more edge can connect: walks that avoid it, and walks that cross it once. */
  ghost predicate Bridged(E: set<Edge>, e: Edge, u: Addr, v: Addr) {
    || Connected(E, u, v)
    || (Connected(E, u, e.a) && Connected(E, e.b, v))
    || (Connected(E, u, e.b) && Connected(E, e.a, v))
  }

  lemma ConnectedAdd(E: set<Edge>, e: Edge, u: Addr, v: Addr)
    ensures Connected(E + {e}, u, v) <==> Bridged(E, e, u, v)
  {
    if Connected(E + {e}, u, v) {
      var inside := iset x | Bridged(E, e, u, x);
      ConnectedRefl(E, u);
      forall x, y | x in inside && Adjacent(E + {e}, x, y)
        ensures y in inside
      {
        BridgedStep(E, e, u, x, y);
      }
      ConnectedStaysInside(E + {e}, inside, u, v);
    }
    if Bridged(E, e, u, v) {
      BridgedIsConnected(E, e, u, v);
    }
  }

  lemma BridgedStep(E: set<Edge>, e: Edge, u: Addr, x: Addr, y: Addr)
    requires Bridged(E, e, u, x) && Adjacent(E + {e}, x, y)
    ensures Bridged(E, e, u, y)
  {
    if Adjacent(E, x, y) {
      ConnectedStep(E, x, y);
      if Connected(E, u, x) {
        ConnectedTrans(E, u, x, y);
      } else if Connected(E, u, e.a) && Connected(E, e.b, x) {
        ConnectedTrans(E, e.b, x, y);
      } else {
        ConnectedTrans(E, e.a, x, y);
      }
    } else {
      ConnectedRefl(E, e.a);
      ConnectedRefl(E, e.b);
      assert e == Edge(x, y) || e == Edge(y, x);
    }
  }

  lemma BridgedIsConnected(E: set<Edge>, e: Edge, u: Addr, v: Addr)
    requires Bridged(E, e, u, v)
    ensures Connected(E + {e}, u, v)
  {
    var F := E + {e};
    ConnectedStep(F, e.a, e.b);
    ConnectedSym(F, e.a, e.b);
    if Connected(E, u, v) {
      ConnectedMono(E, F, u, v);
    } else if Connected(E, u, e.a) && Connected(E, e.b, v) {
      ConnectedMono(E, F, u, e.a);
      ConnectedMono(E, F, e.b, v);
      ConnectedTrans(F, u, e.a, e.b);
      ConnectedTrans(F, u, e.b, v);
    } else {
      ConnectedMono(E, F, u, e.b);
      ConnectedMono(E, F, e.a, v);
      ConnectedTrans(F, u, e.b, e.a);
      ConnectedTrans(F, u, e.a, v);
    }
  }

  lemma ConnectedWithoutEdges(u: Addr, v: Addr)
    ensures Connected({}, u, v) <==> u == v
  {
    if Connected({}, u, v) {
      ConnectedStaysInside({}, iset{u}, u, v);
    } else {
      if u == v { ConnectedRefl({}, u); }
    }
  }

  ghost function Endpoints(E: set<Edge>): set<Addr> {
    (set e | e in E :: e.a) + (set e | e in E :: e.b)
  }

  /** A walk of positive length ends at an endpoint. */
  lemma ConnectedEndpoint(E: set<Edge>, u: Addr, v: Addr)
    requires Connected(E, u, v)
    ensures v == u || v in Endpoints(E)
  {
    var inside := iset x | x == u || x in Endpoints(E);
    forall x, y | x in inside && Adjacent(E, x, y)
      ensures y in inside
    {
      if Edge(x, y) in E {
        assert Edge(x, y).b in Endpoints(E);
      } else {
        assert Edge(y, x).a in Endpoints(E);
      }
    }
    ConnectedStaysInside(E, inside, u, v);
  }
}
