/** Flooding over any lists at all, links held at one end included: what decides whether a frame can come
    to a node twice. */
module FloodingWays {
  import opened Graph
  import opened Forest
  import opened Flooding

  /** The nodes of `q` after `s`, each on the list of the one before, never straight back: a way a frame
      from `s` can go. */
  ghost predicate Way(tables: map<Addr, seq<Addr>>, s: Addr, q: seq<Addr>) {
    s in tables &&
    forall i :: 0 <= i < |q| ==> Onward(tables, s, q, i)
  }

  /** The step to `q[i]`. */
  ghost predicate Onward(tables: map<Addr, seq<Addr>>, s: Addr, q: seq<Addr>, i: nat)
    requires i < |q|
  {
    At(s, q, i) in tables && q[i] in tables[At(s, q, i)] && q[i] != if i == 0 then s else At(s, q, i - 1)
  }

  /** No two ways from one source to one node, the empty way to the source included. */
  ghost predicate OneWayEach(tables: map<Addr, seq<Addr>>) {
    forall s, q, r :: Way(tables, s, q) && Way(tables, s, r) && At(s, q, |q|) == At(s, r, |r|) ==> q == r
  }

  lemma WayPrefix(tables: map<Addr, seq<Addr>>, s: Addr, q: seq<Addr>, n: nat)
    requires Way(tables, s, q) && n <= |q|
    ensures Way(tables, s, q[..n]) && At(s, q[..n], n) == At(s, q, n)
  {
    forall i | 0 <= i < n
      ensures Onward(tables, s, q[..n], i)
    {
      assert Onward(tables, s, q, i);
    }
  }

  lemma WayOnward(tables: map<Addr, seq<Addr>>, s: Addr, q: seq<Addr>, n: Addr)
    requires Way(tables, s, q) && At(s, q, |q|) in tables && n in tables[At(s, q, |q|)]
    requires n != if q == [] then s else At(s, q, |q| - 1)
    ensures Way(tables, s, q + [n]) && At(s, q + [n], |q| + 1) == n && At(s, q + [n], |q|) == At(s, q, |q|)
  {
    var r := q + [n];
    forall i | 0 <= i < |r|
      ensures Onward(tables, s, r, i)
    {
      if i < |q| { assert Onward(tables, s, q, i); }
    }
  }

  lemma AlongSnoc(s: Addr, q: seq<Addr>)
    requires q != []
    ensures Along(s, q) == Along(s, q[..|q| - 1]) + [(At(s, q, |q| - 1), q[|q| - 1])]
  {
    var a, b := Along(s, q), Along(s, q[..|q| - 1]);
    forall i | 0 <= i < |b|
      ensures a[i] == b[i]
    {
    }
  }

  /** A frame can go any way. */
  lemma {:induction false} FrameGoes(tables: map<Addr, seq<Addr>>, s: Addr, q: seq<Addr>)
    requires Way(tables, s, q)
    ensures FloodRun(tables, s, Along(s, q)) && Delivered(s, Along(s, q))[At(s, q, |q|)] >= 1
    ensures forall n :: Way(tables, s, q + [n]) ==> (At(s, q, |q|), n) in InFlight(tables, s, Along(s, q))
    decreases |q|
  {
    hide Way, FloodRun, InFlight, Delivered, Along;
    if q == [] {
      StandingStill({}, s, s);
      FloodStarts(tables, s);
    } else {
      var m := |q| - 1;
      WayPrefix(tables, s, q, m);
      FrameGoes(tables, s, q[..m]);
      assert q[..m] + [q[m]] == q;
      AlongSnoc(s, q);
      OneMoreCopy(tables, s, Along(s, q[..m]), At(s, q, m), q[m]);
    }
    forall n | Way(tables, s, q + [n])
      ensures (At(s, q, |q|), n) in Sent(tables, if q == [] then s else At(s, q, |q| - 1), At(s, q, |q|))
    {
      LastOnward(tables, s, q, n);
    }
  }

  lemma LastOnward(tables: map<Addr, seq<Addr>>, s: Addr, q: seq<Addr>, n: Addr)
    requires Way(tables, s, q + [n])
    ensures At(s, q, |q|) in tables && n in tables[At(s, q, |q|)]
    ensures n != if q == [] then s else At(s, q, |q| - 1)
  {
    assert Onward(tables, s, q + [n], |q|);
    assert At(s, q + [n], |q|) == At(s, q, |q|);
    if q != [] { assert At(s, q + [n], |q| - 1) == At(s, q, |q| - 1); }
  }

  /** Every node on the way has been given the frame. */
  lemma {:induction false} DeliveredOnTheWay(s: Addr, q: seq<Addr>, i: nat)
    requires i <= |q|
    ensures Delivered(s, Along(s, q))[At(s, q, i)] >= 1
    decreases |q|
  {
    hide Along;
    if i < |q| {
      AlongSnoc(s, q);
      DeliveredOnTheWay(s, q[..|q| - 1], i);
      assert At(s, q[..|q| - 1], i) == At(s, q, i);
      DeliveredSnoc(s, Along(s, q[..|q| - 1]), (At(s, q, |q| - 1), q[|q| - 1]));
    } else if q == [] {
      StartIsDelivered(s, Along(s, q));
    } else {
      AlongSnoc(s, q);
      DeliveredSnoc(s, Along(s, q[..|q| - 1]), (At(s, q, |q| - 1), q[|q| - 1]));
    }
  }

  lemma DeliveredSnoc(s: Addr, copies: seq<(Addr, Addr)>, copy: (Addr, Addr))
    ensures Delivered(s, copies + [copy]) == Delivered(s, copies) + multiset{copy.1}
  {
    assert (copies + [copy])[..|copies|] == copies;
  }

  /** A way that comes back to a node brings the frame there twice. */
  lemma ComesBack(tables: map<Addr, seq<Addr>>, s: Addr, q: seq<Addr>, i: nat, j: nat)
    returns (copies: seq<(Addr, Addr)>)
    requires Way(tables, s, q) && i < j <= |q| && At(s, q, i) == At(s, q, j)
    ensures FloodRun(tables, s, copies) && Delivered(s, copies)[At(s, q, j)] >= 2
  {
    hide Along, FloodRun, InFlight, Delivered;
    var r := q[..j];
    WayPrefix(tables, s, q, j);
    FrameGoes(tables, s, r);
    copies := Along(s, r);
    AlongSnoc(s, r);
    DeliveredOnTheWay(s, r[..j - 1], i);
    assert At(s, r[..j - 1], i) == At(s, q, i);
    DeliveredSnoc(s, Along(s, r[..j - 1]), (At(s, r, j - 1), r[j - 1]));
  }

  /** A copy in flight stays so until it is delivered. */
  lemma {:induction false} StaysFrom(
    tables: map<Addr, seq<Addr>>, s: Addr, copies: seq<(Addr, Addr)>, n: nat, copy: (Addr, Addr))
    requires FloodRun(tables, s, copies) && n <= |copies| && copy in InFlight(tables, s, copies[..n])
    requires forall k :: n <= k < |copies| ==> copies[k] != copy
    ensures copy in InFlight(tables, s, copies)
    decreases |copies|
  {
    hide FloodRun, InFlight, Delivered;
    if n == |copies| {
      assert copies[..n] == copies;
    } else {
      var m := |copies| - 1;
      var (p, c) := copies[m];
      LastCopy(tables, s, copies, p, c);
      assert copies[..m][..n] == copies[..n];
      StaysFrom(tables, s, copies[..m], n, copy);
    }
  }

  /** A copy on a way can go on to the end of it. */
  lemma {:induction false} GoesOn(
    tables: map<Addr, seq<Addr>>, s: Addr, copies: seq<(Addr, Addr)>, r: seq<Addr>, j: nat)
    returns (more: seq<(Addr, Addr)>)
    requires Way(tables, s, r) && j < |r| && FloodRun(tables, s, copies)
    requires (At(s, r, j), r[j]) in InFlight(tables, s, copies)
    ensures FloodRun(tables, s, more)
    ensures Delivered(s, more)[At(s, r, |r|)] >= Delivered(s, copies)[At(s, r, |r|)] + 1
    decreases |r| - j
  {
    hide FloodRun, InFlight, Delivered;
    OneMoreCopy(tables, s, copies, At(s, r, j), r[j]);
    more := copies + [(At(s, r, j), r[j])];
    if j + 1 < |r| {
      assert Onward(tables, s, r, j + 1);
      assert (At(s, r, j + 1), r[j + 1]) in Sent(tables, At(s, r, j), r[j]);
      more := GoesOn(tables, s, more, r, j + 1);
    }
  }

  ghost predicate Simple(s: Addr, q: seq<Addr>) {
    forall i, j :: 0 <= i < j <= |q| ==> At(s, q, i) != At(s, q, j)
  }

  lemma {:induction false} FirstDifference(q: seq<Addr>, r: seq<Addr>, k: nat) returns (j: nat)
    requires k < |q| && k < |r| && q[k] != r[k]
    ensures j < |q| && j < |r| && q[j] != r[j] && q[..j] == r[..j]
    decreases k
  {
    if i: nat :| i < k && q[i] != r[i] {
      j := FirstDifference(q, r, i);
    } else {
      j := k;
    }
  }

  /** Two ways that part bring the frame twice to the node where they meet. */
  lemma WaysMeet(tables: map<Addr, seq<Addr>>, s: Addr, q: seq<Addr>, r: seq<Addr>, j: nat)
    returns (copies: seq<(Addr, Addr)>)
    requires Way(tables, s, q) && Way(tables, s, r) && At(s, q, |q|) == At(s, r, |r|) && Simple(s, q)
    requires j < |q| && j < |r| && q[j] != r[j] && q[..j] == r[..j]
    ensures FloodRun(tables, s, copies) && Delivered(s, copies)[At(s, q, |q|)] >= 2
  {
    hide Way, FloodRun, InFlight, Delivered;
    var a, x := Along(s, q), At(s, q, j);
    FrameGoes(tables, s, q);
    WayPrefix(tables, s, q, j);
    WayPrefix(tables, s, r, j + 1);
    assert r[..j + 1] == q[..j] + [r[j]];
    FrameGoes(tables, s, q[..j]);
    assert a[..j] == Along(s, q[..j]) by {
      forall i | 0 <= i < j
        ensures a[i] == Along(s, q[..j])[i]
      {
        assert At(s, q[..j], i) == At(s, q, i);
      }
    }
    assert At(s, r, j) == x by { if j > 0 { assert q[..j][j - 1] == r[..j][j - 1]; } }
    forall k | j <= k < |a|
      ensures a[k] != (x, r[j])
    {
      assert a[k] == (At(s, q, k), q[k]);
    }
    hide Along, Simple;
    StaysFrom(tables, s, a, j, (x, r[j]));
    copies := GoesOn(tables, s, a, r, j);
  }

  /** Two ways to one node bring a frame there twice. */
  lemma TwoWaysArriveTwice(tables: map<Addr, seq<Addr>>, s: Addr, q: seq<Addr>, r: seq<Addr>)
    returns (copies: seq<(Addr, Addr)>, v: Addr)
    requires Way(tables, s, q) && Way(tables, s, r) && At(s, q, |q|) == At(s, r, |r|) && q != r && |q| <= |r|
    ensures FloodRun(tables, s, copies) && Delivered(s, copies)[v] >= 2
  {
    hide FloodRun, InFlight, Delivered, Way;
    if !Simple(s, q) {
      var i: nat, j: nat :| i < j <= |q| && At(s, q, i) == At(s, q, j);
      v := At(s, q, j);
      copies := ComesBack(tables, s, q, i, j);
    } else if q == r[..|q|] {
      assert At(s, r, |q|) == At(s, q, |q|);
      v := At(s, r, |r|);
      copies := ComesBack(tables, s, r, |q|, |r|);
    } else {
      var k: nat :| k < |q| && q[k] != r[k];
      var j := FirstDifference(q, r, k);
      v := At(s, q, |q|);
      copies := WaysMeet(tables, s, q, r, j);
    }
  }

  /** The copy is the last step of a way. */
  ghost predicate Came(tables: map<Addr, seq<Addr>>, s: Addr, copy: (Addr, Addr)) {
    exists q :: q != [] && Way(tables, s, q) && copy == (At(s, q, |q| - 1), q[|q| - 1])
  }

  ghost function Receivers(copies: seq<(Addr, Addr)>): set<Addr> {
    set copy | copy in copies :: copy.1
  }

  /** Where a flood stands while no copy has come to a node that had the frame. */
  ghost predicate Fanned(
    tables: map<Addr, seq<Addr>>, s: Addr, copies: seq<(Addr, Addr)>, D: set<Addr>, F: set<(Addr, Addr)>)
  {
    && D == {s} + Receivers(copies)
    && (forall copy :: copy in F || copy in copies ==> copy.0 in D && Came(tables, s, copy))
    && (forall copy :: copy in F ==> copy !in copies)
  }

  /** A copy in flight is to a new node: anything else would be a second way there. */
  lemma CopyIsToANewNode(
    tables: map<Addr, seq<Addr>>, s: Addr, copies: seq<(Addr, Addr)>, D: set<Addr>, F: set<(Addr, Addr)>,
    copy: (Addr, Addr))
    requires OneWayEach(tables) && Fanned(tables, s, copies, D, F) && copy in F && s in tables
    ensures copy.1 !in D
  {
    hide Way, OneWayEach, Came;
    var q := WayOf(tables, s, copy);
    if copy.1 == s {
      NoWay(tables, s);
      SameWay(tables, s, [], q);
    } else if copy.1 in D {
      var other :| other in copies && other.1 == copy.1;
      var r := WayOf(tables, s, other);
      SameWay(tables, s, q, r);
    }
  }

  lemma WayOf(tables: map<Addr, seq<Addr>>, s: Addr, copy: (Addr, Addr)) returns (q: seq<Addr>)
    requires Came(tables, s, copy)
    ensures q != [] && Way(tables, s, q) && At(s, q, |q|) == copy.1 && At(s, q, |q| - 1) == copy.0
  {
    q :| q != [] && Way(tables, s, q) && copy == (At(s, q, |q| - 1), q[|q| - 1]);
  }

  lemma SameWay(tables: map<Addr, seq<Addr>>, s: Addr, q: seq<Addr>, r: seq<Addr>)
    requires OneWayEach(tables) && Way(tables, s, q) && Way(tables, s, r) && At(s, q, |q|) == At(s, r, |r|)
    ensures q == r
  {
  }

  lemma NoWay(tables: map<Addr, seq<Addr>>, s: Addr)
    requires s in tables
    ensures Way(tables, s, [])
  {
  }

  lemma CopyFansOut(
    tables: map<Addr, seq<Addr>>, s: Addr, copies: seq<(Addr, Addr)>, D: set<Addr>, F: set<(Addr, Addr)>,
    copy: (Addr, Addr))
    requires Fanned(tables, s, copies, D, F) && copy in F && copy.1 !in D
    ensures Fanned(tables, s, copies + [copy], D + {copy.1}, F - {copy} + Sent(tables, copy.0, copy.1))
    ensures Sent(tables, copy.0, copy.1) !! F
  {
    var more := copies + [copy];
    forall c
      ensures c in more <==> c in copies || c == copy
    {
      if c in copies {
        var i :| 0 <= i < |copies| && copies[i] == c;
        assert more[i] == c;
      }
      assert more[|copies|] == copy;
    }
    assert Receivers(more) == Receivers(copies) + {copy.1};
    forall c | c in Sent(tables, copy.0, copy.1)
      ensures Came(tables, s, c) && c.0 == copy.1
    {
      CameOnward(tables, s, copy, c.1);
    }
    hide Came, Sent, Receivers;
  }

  lemma CameOnward(tables: map<Addr, seq<Addr>>, s: Addr, copy: (Addr, Addr), n: Addr)
    requires Came(tables, s, copy) && copy.1 in tables && n in tables[copy.1] && n != copy.0
    ensures Came(tables, s, (copy.1, n))
  {
    hide Way;
    var q := WayOf(tables, s, copy);
    WayOnward(tables, s, q, n);
    var r := q + [n];
    assert r != [] && (copy.1, n) == (At(s, r, |r| - 1), r[|r| - 1]);
  }

  lemma {:induction false} FansOut(tables: map<Addr, seq<Addr>>, s: Addr, copies: seq<(Addr, Addr)>)
    returns (D: set<Addr>, F: set<(Addr, Addr)>)
    requires OneWayEach(tables) && s in tables && FloodRun(tables, s, copies)
    ensures Delivered(s, copies) == multiset(D) && InFlight(tables, s, copies) == multiset(F)
    ensures Fanned(tables, s, copies, D, F)
    decreases |copies|
  {
    hide FloodRun, InFlight, Delivered, OneWayEach, Fanned;
    if copies == [] {
      FloodStarts(tables, s);
      D, F := {s}, Sent(tables, s, s);
      StartFans(tables, s);
    } else {
      var m := |copies| - 1;
      var (p, c) := copies[m];
      LastCopy(tables, s, copies, p, c);
      D, F := FansOut(tables, s, copies[..m]);
      CopyIsToANewNode(tables, s, copies[..m], D, F, (p, c));
      CopyFansOut(tables, s, copies[..m], D, F, (p, c));
      assert copies[..m] + [(p, c)] == copies;
      CopyMoves(F, (p, c), Sent(tables, p, c));
      D, F := D + {c}, F - {(p, c)} + Sent(tables, p, c);
    }
  }

  lemma StartFans(tables: map<Addr, seq<Addr>>, s: Addr)
    requires s in tables
    ensures Fanned(tables, s, [], {s}, Sent(tables, s, s))
  {
    NoWay(tables, s);
    forall c | c in Sent(tables, s, s)
      ensures Came(tables, s, c) && c.0 == s
    {
      WayOnward(tables, s, [], c.1);
      assert [] + [c.1] == [c.1];
      assert c == (At(s, [c.1], 0), [c.1][0]);
    }
  }

  /** Over any lists, whoever holds a link: no frame comes to a node twice exactly when there is at most
      one way from any node to any. */
  lemma NeverTwiceOverAnyLists(tables: map<Addr, seq<Addr>>)
    ensures NeverTwice(tables) <==> OneWayEach(tables)
  {
    hide FloodRun, InFlight, Delivered, Way, Fanned;
    if !OneWayEach(tables) {
      var s, q, r :| Way(tables, s, q) && Way(tables, s, r) && At(s, q, |q|) == At(s, r, |r|) && q != r;
      WayStarts(tables, s, q);
      var copies, v := TwoWaysArriveTwice(tables, s, if |q| <= |r| then q else r, if |q| <= |r| then r else q);
    } else {
      forall s, copies, v | s in tables && FloodRun(tables, s, copies)
        ensures Delivered(s, copies)[v] <= 1
      {
        var D, F := FansOut(tables, s, copies);
      }
    }
  }

  lemma WayStarts(tables: map<Addr, seq<Addr>>, s: Addr, q: seq<Addr>)
    requires Way(tables, s, q)
    ensures s in tables
  {
  }

  /** Lists that name links without a cycle, at one end or both, never bring a frame to a node twice. */
  lemma LinksWithoutCycle(T: set<Edge>, tables: map<Addr, seq<Addr>>)
    requires Acyclic(T) && forall k, v :: k in tables && v in tables[k] ==> Adjacent(T, k, v)
    ensures NeverTwice(tables)
  {
    forall s | s in tables
      ensures ListsFrom(tables, T, s)
    {
    }
    hide FloodRun, InFlight, Delivered, ListsFrom, Acyclic, Boundary, Reached, Adjacent;
    forall s, copies, v | s in tables && FloodRun(tables, s, copies)
      ensures Delivered(s, copies)[v] <= 1
    {
      var D, F := SpreadsOverLinks(T, tables, s, copies);
    }
  }
}
