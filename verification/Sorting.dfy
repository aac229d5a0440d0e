/** The stable sort that `Array.prototype.sort` is: a sorted permutation that keeps equal elements in order. */
module Sorting {
  import opened Sequences

  ghost predicate TotalPreorder<T(!new)>(leq: (T, T) -> bool) {
    && (forall a, b :: leq(a, b) || leq(b, a))
    && (forall a, b, c :: leq(a, b) && leq(b, c) ==> leq(a, c))
  }

  ghost predicate Sorted<T>(leq: (T, T) -> bool, s: seq<T>) {
    forall i, j :: 0 <= i < j < |s| ==> leq(s[i], s[j])
  }

  /** Puts x after every element that may precede it. */
  function Insert<T>(leq: (T, T) -> bool, s: seq<T>, x: T): seq<T> {
    if s == [] || leq(s[|s| - 1], x) then s + [x]
    else Insert(leq, s[..|s| - 1], x) + [s[|s| - 1]]
  }

  function Sort<T>(leq: (T, T) -> bool, s: seq<T>): seq<T> {
    if s == [] then [] else Insert(leq, Sort(leq, s[..|s| - 1]), s[|s| - 1])
  }

  lemma {:induction false} InsertElements<T>(leq: (T, T) -> bool, s: seq<T>, x: T)
    ensures multiset(Insert(leq, s, x)) == multiset(s) + multiset{x}
    ensures |Insert(leq, s, x)| == |s| + 1
  {
    if s != [] && !leq(s[|s| - 1], x) {
      InsertElements(leq, s[..|s| - 1], x);
      assert s == s[..|s| - 1] + [s[|s| - 1]];
    }
  }

  lemma {:induction false} SortElements<T>(leq: (T, T) -> bool, s: seq<T>)
    ensures multiset(Sort(leq, s)) == multiset(s)
    ensures |Sort(leq, s)| == |s|
  {
    if s != [] {
      SortElements(leq, s[..|s| - 1]);
      InsertElements(leq, Sort(leq, s[..|s| - 1]), s[|s| - 1]);
      assert s == s[..|s| - 1] + [s[|s| - 1]];
    }
  }

  lemma {:induction false} SortMember<T>(leq: (T, T) -> bool, s: seq<T>, x: T)
    ensures x in Sort(leq, s) <==> x in s
  {
    SortElements(leq, s);
    assert x in Sort(leq, s) <==> x in multiset(Sort(leq, s));
    assert x in s <==> x in multiset(s);
  }

  lemma {:induction false} InsertSorted<T(!new)>(leq: (T, T) -> bool, s: seq<T>, x: T)
    requires TotalPreorder(leq) && Sorted(leq, s)
    ensures Sorted(leq, Insert(leq, s, x))
  {
    if s != [] && !leq(s[|s| - 1], x) {
      var n := |s| - 1;
      var r := Insert(leq, s[..n], x);
      InsertSorted(leq, s[..n], x);
      InsertElements(leq, s[..n], x);
      forall i | 0 <= i < |r|
        ensures leq(r[i], s[n])
      {
        assert r[i] in multiset(r);
        if r[i] != x {
          assert r[i] in s[..n];
        }
      }
    }
  }

  lemma {:induction false} SortSorted<T(!new)>(leq: (T, T) -> bool, s: seq<T>)
    requires TotalPreorder(leq)
    ensures Sorted(leq, Sort(leq, s))
  {
    if s != [] {
      SortSorted(leq, s[..|s| - 1]);
      InsertSorted(leq, Sort(leq, s[..|s| - 1]), s[|s| - 1]);
    }
  }

  lemma {:induction false} SortOfSorted<T>(leq: (T, T) -> bool, s: seq<T>)
    requires Sorted(leq, s)
    ensures Sort(leq, s) == s
  {
    if s != [] {
      var n := |s| - 1;
      SortOfSorted(leq, s[..n]);
      assert n > 0 ==> leq(s[n - 1], s[n]);
      assert s == s[..n] + [s[n]];
    }
  }

  /** Elements that are equal for the order keep their relative position. */
  lemma {:induction false} InsertStable<T(!new)>(leq: (T, T) -> bool, s: seq<T>, x: T, p: T -> bool)
    requires TotalPreorder(leq)
    requires forall a, b :: p(a) && p(b) ==> leq(a, b)
    ensures Filter(p, Insert(leq, s, x)) == Filter(p, s + [x])
  {
    FilterSnoc(p, s, x);
    if s != [] && !leq(s[|s| - 1], x) {
      var n := |s| - 1;
      InsertStable(leq, s[..n], x, p);
      FilterSnoc(p, Insert(leq, s[..n], x), s[n]);
      FilterSnoc(p, s[..n], x);
    }
  }

  lemma {:induction false} SortStable<T(!new)>(leq: (T, T) -> bool, s: seq<T>, p: T -> bool)
    requires TotalPreorder(leq)
    requires forall a, b :: p(a) && p(b) ==> leq(a, b)
    ensures Filter(p, Sort(leq, s)) == Filter(p, s)
  {
    if s != [] {
      var n := |s| - 1;
      SortStable(leq, s[..n], p);
      InsertStable(leq, Sort(leq, s[..n]), s[n], p);
      FilterSnoc(p, Sort(leq, s[..n]), s[n]);
      FilterSnoc(p, s[..n], s[n]);
      assert s == s[..n] + [s[n]];
    }
  }

  lemma {:induction false} InsertMap<A, B>(f: A -> B, leqA: (A, A) -> bool, leqB: (B, B) -> bool, s: seq<A>, x: A)
    requires forall a, b | a in s + [x] && b in s + [x] :: leqA(a, b) == leqB(f(a), f(b))
    ensures Insert(leqB, Map(f, s), f(x)) == Map(f, Insert(leqA, s, x))
  {
    if s != [] && !leqA(s[|s| - 1], x) {
      var n := |s| - 1;
      assert Map(f, s)[..n] == Map(f, s[..n]);
      assert forall a | a in s[..n] + [x] :: a in s + [x];
      InsertMap(f, leqA, leqB, s[..n], x);
      MapAppend(f, Insert(leqA, s[..n], x), [s[n]]);
    } else {
      MapAppend(f, s, [x]);
    }
  }

  /** Sorting objects by a key is sorting their keys. */
  lemma {:induction false} SortMap<A, B>(f: A -> B, leqA: (A, A) -> bool, leqB: (B, B) -> bool, s: seq<A>)
    requires forall a, b | a in s && b in s :: leqA(a, b) == leqB(f(a), f(b))
    ensures Sort(leqB, Map(f, s)) == Map(f, Sort(leqA, s))
  {
    if s != [] {
      var n := |s| - 1;
      assert Map(f, s)[..n] == Map(f, s[..n]);
      SortMap(f, leqA, leqB, s[..n]);
      forall a | a in Sort(leqA, s[..n]) + [s[n]]
        ensures a in s
      {
        SortMember(leqA, s[..n], a);
      }
      InsertMap(f, leqA, leqB, Sort(leqA, s[..n]), s[n]);
    }
  }

  lemma {:induction false} SortDistinct<T>(leq: (T, T) -> bool, s: seq<T>)
    requires Distinct(s)
    ensures Distinct(Sort(leq, s))
  {
    var r := Sort(leq, s);
    SortElements(leq, s);
    forall i, j | 0 <= i < j < |r|
      ensures r[i] != r[j]
    {
      DistinctMultiplicity(s, r[i]);
      assert r == r[..j] + r[j..];
      assert r[i] in r[..j] && r[j] in r[j..];
      assert multiset(r)[r[i]] == multiset(r[..j])[r[i]] + multiset(r[j..])[r[i]];
    }
  }

  lemma {:induction false} DistinctMultiplicity<T>(s: seq<T>, x: T)
    requires Distinct(s)
    ensures multiset(s)[x] <= 1
  {
    if s != [] {
      var n := |s| - 1;
      DistinctMultiplicity(s[..n], x);
      assert s == s[..n] + [s[n]];
      if s[n] == x {
        assert x !in s[..n];
      }
    }
  }

  /** The first n of the sorted elements: taken from s, and none of the others goes before any of them. */
  lemma {:induction false} FirstSorted<T(!new)>(leq: (T, T) -> bool, s: seq<T>, n: nat)
    requires TotalPreorder(leq) && n <= |s|
    ensures |Sort(leq, s)| == |s|
    ensures
      var r := Sort(leq, s)[..n];
      && (forall u | u in r :: u in s)
      && (forall u, w | u in r && w in s && w !in r :: leq(u, w))
      && (Distinct(s) ==> Distinct(r))
  {
    var all := Sort(leq, s);
    SortElements(leq, s);
    SortSorted(leq, s);
    var r := all[..n];
    forall u | u in r
      ensures u in s
    {
      SortMember(leq, s, u);
    }
    forall u, w | u in r && w in s && w !in r
      ensures leq(u, w)
    {
      SortMember(leq, s, w);
      var i :| 0 <= i < n && r[i] == u;
      var j :| 0 <= j < |all| && all[j] == w;
      assert forall k | 0 <= k < n :: all[k] in r;
      assert all[i] == u;
    }
    if Distinct(s) {
      SortDistinct(leq, s);
    }
  }

  lemma {:induction false} InsertSum<T>(leq: (T, T) -> bool, s: seq<T>, x: T, f: T -> int)
    ensures Sum(f, Insert(leq, s, x)) == Sum(f, s) + f(x)
  {
    if s == [] || leq(s[|s| - 1], x) {
      SumSnoc(f, s, x);
    } else {
      InsertSum(leq, s[..|s| - 1], x, f);
      SumSnoc(f, Insert(leq, s[..|s| - 1], x), s[|s| - 1]);
    }
  }

  /** Sorting does not change totals. */
  lemma {:induction false} SortSum<T>(leq: (T, T) -> bool, s: seq<T>, f: T -> int)
    ensures Sum(f, Sort(leq, s)) == Sum(f, s)
  {
    if s != [] {
      SortSum(leq, s[..|s| - 1], f);
      InsertSum(leq, Sort(leq, s[..|s| - 1]), s[|s| - 1], f);
    }
  }
}
