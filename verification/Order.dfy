/** The orders the program sorts by, and what its calls to `sort` promise.

    Strings are sequences of code points. Go compares strings byte by byte, and UTF-8 keeps the
    order of code points, so the two orders agree on text. */
module Order {
  import opened Prelude

  predicate Less(s: string, t: string) {
    t != [] && (s == [] || s[0] < t[0] || (s[0] == t[0] && Less(s[1..], t[1..])))
  }

  lemma {:induction false} LessTransitive(s: string, t: string, u: string)
    requires Less(s, t) && Less(t, u)
    ensures Less(s, u)
  {
    if s != [] && s[0] == t[0] && t[0] == u[0] {
      LessTransitive(s[1..], t[1..], u[1..]);
    }
  }

  lemma {:induction false} LessTotal(s: string, t: string)
    ensures !Less(s, s)
    ensures s == t || Less(s, t) || Less(t, s)
  {
    if s != [] {
      LessTotal(s[1..], if t == [] then t else t[1..]);
      if t != [] && s[0] == t[0] && s[1..] == t[1..] {
        assert s == [s[0]] + s[1..] == [t[0]] + t[1..] == t;
      }
    }
  }

  /** `s` and `t` first differ at `k`, and `s` is the smaller there. */
  ghost predicate DiffersAt(s: string, t: string, k: int) {
    0 <= k < |s| && k < |t| && s[..k] == t[..k] && s[k] < t[k]
  }

  /** Strings are compared at their first difference, and a proper prefix comes before what it starts. Length
      plays no other part: "100.64.0.10" comes before "100.64.0.2". */
  lemma {:induction false} LessAtFirstDifference(s: string, t: string)
    ensures Less(s, t) <==> s < t || exists k :: DiffersAt(s, t, k)
    decreases |s|
  {
    if s != [] && t != [] && s[0] == t[0] {
      LessAtFirstDifference(s[1..], t[1..]);
      assert s == [s[0]] + s[1..] && t == [t[0]] + t[1..];
      if k :| DiffersAt(s[1..], t[1..], k) {
        assert s[..k + 1] == [s[0]] + s[1..][..k] && t[..k + 1] == [t[0]] + t[1..][..k];
        assert DiffersAt(s, t, k + 1);
      }
      if k :| DiffersAt(s, t, k) {
        assert k > 0;
        assert s[1..][..k - 1] == s[..k][1..] && t[1..][..k - 1] == t[..k][1..];
        assert DiffersAt(s[1..], t[1..], k - 1);
      }
    } else if s != [] && t != [] {
      if s[0] < t[0] { assert DiffersAt(s, t, 0); }
      if k :| DiffersAt(s, t, k) {
        assert k > 0 ==> s[..k][0] == t[..k][0];
      }
    }
  }

  /** What `sort.Slice` needs of its comparison; totality makes its result unique. */
  ghost predicate StrictTotal<T(!new)>(less: (T, T) -> bool) {
    && (forall x :: !less(x, x))
    && (forall x, y :: x == y || less(x, y) || less(y, x))
    && (forall x, y, z :: less(x, y) && less(y, z) ==> less(x, z))
  }

  lemma StringsAreTotal()
    ensures StrictTotal(Less)
  {
    forall x: string, y: string
      ensures !Less(x, x) && (x == y || Less(x, y) || Less(y, x))
    {
      LessTotal(x, y);
    }
    forall x: string, y: string, z: string | Less(x, y) && Less(y, z)
      ensures Less(x, z)
    {
      LessTransitive(x, y, z);
    }
  }

  ghost predicate Sorted<T>(less: (T, T) -> bool, s: seq<T>) {
    forall i, j :: 0 <= i < j < |s| ==> s[i] == s[j] || less(s[i], s[j])
  }

  /** Sorted and free of duplicates. */
  ghost predicate Ascending<T>(less: (T, T) -> bool, s: seq<T>) {
    forall i, j :: 0 <= i < j < |s| ==> less(s[i], s[j])
  }

  lemma {:induction false} AscendingHasNoDuplicates<T(!new)>(less: (T, T) -> bool, s: seq<T>)
    requires StrictTotal(less) && Ascending(less, s)
    ensures |Elems(s)| == |s|
  {
    if s != [] {
      var n := |s| - 1;
      AscendingHasNoDuplicates(less, s[..n]);
      ElemsOfSnoc(s[..n], s[n]);
      assert s == s[..n] + [s[n]];
      assert s[n] !in s[..n];
    }
  }

  /** An ascending sequence is determined by its elements, whatever order they were collected in. */
  lemma {:induction false} AscendingIsUnique<T(!new)>(less: (T, T) -> bool, s: seq<T>, t: seq<T>)
    requires StrictTotal(less) && Ascending(less, s) && Ascending(less, t)
    requires Elems(s) == Elems(t)
    ensures s == t
  {
    AscendingHasNoDuplicates(less, s);
    AscendingHasNoDuplicates(less, t);
    if s != [] {
      assert s[0] in Elems(t);
      assert t[0] in Elems(s);
      assert s[0] == t[0];
      forall x
        ensures x in s[1..] <==> x in t[1..]
      {
        assert x in s <==> x in t by { assert x in Elems(s) <==> x in Elems(t); }
        assert x in s <==> x == s[0] || x in s[1..];
        assert x in t <==> x == t[0] || x in t[1..];
        assert s[0] !in s[1..] && t[0] !in t[1..];
      }
      AscendingIsUnique(less, s[1..], t[1..]);
      assert s == [s[0]] + s[1..];
      assert t == [t[0]] + t[1..];
    }
  }

  lemma SortedDistinctIsAscending<T>(less: (T, T) -> bool, s: seq<T>)
    requires Sorted(less, s)
    requires forall i, j :: 0 <= i < j < |s| ==> s[i] != s[j]
    ensures Ascending(less, s)
  {
  }

  /** `sort.Slice` and `sort.Strings`: only this contract is used, never the algorithm. */
  method Sort<T(!new, ==)>(less: (T, T) -> bool, xs: seq<T>) returns (s: seq<T>)
    requires StrictTotal(less)
    ensures Sorted(less, s)
    ensures multiset(s) == multiset(xs)
  {
    s := [];
    for n := 0 to |xs|
      invariant Sorted(less, s)
      invariant multiset(s) == multiset(xs[..n])
    {
      assert xs[..n + 1] == xs[..n] + [xs[n]];
      s := Insert(less, s, xs[n]);
    }
    assert xs[..|xs|] == xs;
  }

  method Insert<T(!new, ==)>(less: (T, T) -> bool, s: seq<T>, x: T) returns (t: seq<T>)
    requires StrictTotal(less) && Sorted(less, s)
    ensures Sorted(less, t)
    ensures multiset(t) == multiset(s) + multiset{x}
  {
    var i := 0;
    while i < |s| && less(s[i], x)
      invariant 0 <= i <= |s|
      invariant forall k :: 0 <= k < i ==> less(s[k], x)
    {
      i := i + 1;
    }
    InsertAt(less, s, x, i);
    t := s[..i] + [x] + s[i..];
  }

  lemma InsertAt<T(!new)>(less: (T, T) -> bool, s: seq<T>, x: T, i: nat)
    requires StrictTotal(less) && Sorted(less, s) && i <= |s|
    requires forall k :: 0 <= k < i ==> less(s[k], x)
    requires i < |s| ==> !less(s[i], x)
    ensures Sorted(less, s[..i] + [x] + s[i..])
    ensures multiset(s[..i] + [x] + s[i..]) == multiset(s) + multiset{x}
  {
    assert s == s[..i] + s[i..];
    forall k | i <= k < |s|
      ensures x == s[k] || less(x, s[k])
    {
      assert s[i] == s[k] || less(s[i], s[k]);
    }
    hide StrictTotal;
    InsertedSorted(less, s, x, i);
  }

  lemma InsertedSorted<T>(less: (T, T) -> bool, s: seq<T>, x: T, i: nat)
    requires Sorted(less, s) && i <= |s|
    requires forall k :: 0 <= k < i ==> less(s[k], x)
    requires forall k :: i <= k < |s| ==> x == s[k] || less(x, s[k])
    ensures Sorted(less, s[..i] + [x] + s[i..])
  {
    var t := s[..i] + [x] + s[i..];
    assert forall k :: 0 <= k < |t| && k != i ==> t[k] == s[if k < i then k else k - 1];
    assert t[i] == x;
  }

  lemma SameMultisetSameElems<T>(s: seq<T>, t: seq<T>)
    requires multiset(s) == multiset(t)
    ensures Elems(s) == Elems(t) && |s| == |t|
  {
    assert forall x :: x in s <==> x in multiset(s);
    assert forall x :: x in t <==> x in multiset(t);
    assert |s| == |multiset(s)| == |multiset(t)| == |t|;
  }

  /** `sort` applied to distinct values, as after filling a list from a Go map. */
  method SortDistinct<T(!new, ==)>(less: (T, T) -> bool, xs: seq<T>) returns (s: seq<T>)
    requires StrictTotal(less)
    requires |Elems(xs)| == |xs|
    ensures Ascending(less, s)
    ensures Elems(s) == Elems(xs)
  {
    s := Sort(less, xs);
    SameMultisetSameElems(s, xs);
    DistinctByCount(s);
    SortedDistinctIsAscending(less, s);
  }

  lemma {:induction false} DistinctByCount<T>(s: seq<T>)
    ensures |Elems(s)| <= |s|
    ensures |Elems(s)| == |s| ==> forall i, j :: 0 <= i < j < |s| ==> s[i] != s[j]
  {
    if s != [] {
      var n := |s| - 1;
      DistinctByCount(s[..n]);
      ElemsOfSnoc(s[..n], s[n]);
      assert s == s[..n] + [s[n]];
      if s[n] in s[..n] {
        assert Elems(s) == Elems(s[..n]);
      }
    }
  }

  lemma {:induction false} LeastString(keys: set<string>) returns (m: string)
    requires keys != {}
    ensures m in keys && forall k :: k in keys && k != m ==> Less(m, k)
    decreases |keys|
  {
    m :| m in keys;
    if keys != {m} {
      assert keys - {m} != {};
      var n := LeastString(keys - {m});
      LessTotal(m, n);
      if Less(n, m) {
        m := n;
      } else {
        forall k | k in keys && k != m
          ensures Less(m, k)
        {
          if k != n { LessTransitive(m, n, k); }
        }
      }
    }
  }

  /** Every finite set of strings has its sorted list. */
  lemma {:induction false} AscendingList(keys: set<string>) returns (out: seq<string>)
    ensures Ascending(Less, out) && Elems(out) == keys
    decreases |keys|
  {
    out := [];
    if keys != {} {
      var m := LeastString(keys);
      var rest := AscendingList(keys - {m});
      forall i | 0 <= i < |rest|
        ensures Less(m, rest[i])
      {
        assert rest[i] in Elems(rest);
      }
      out := [m] + rest;
      ElemsOfConcat([m], rest);
    }
  }
}
