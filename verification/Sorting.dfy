/** Python's `sorted` for a total order given as a function, and what positions in a sorted list say about counts. */
module Sorting {

  ghost predicate TotalOrder<T(!new)>(leq: (T, T) -> bool) {
    && (forall x, y :: leq(x, y) || leq(y, x))
    && (forall x, y :: leq(x, y) && leq(y, x) ==> x == y)
    && (forall x, y, z :: Chains(leq, x, y, z))
  }

  /** Transitivity at three elements. */
  predicate Chains<T>(leq: (T, T) -> bool, x: T, y: T, z: T) {
    leq(x, y) && leq(y, z) ==> leq(x, z)
  }

  predicate Sorted<T>(s: seq<T>, leq: (T, T) -> bool) {
    forall i, j :: 0 <= i < j < |s| ==> leq(s[i], s[j])
  }

  function Insert<T>(s: seq<T>, x: T, leq: (T, T) -> bool): seq<T> {
    if s == [] || leq(s[|s| - 1], x) then s + [x]
    else Insert(s[..|s| - 1], x, leq) + [s[|s| - 1]]
  }

  function Sort<T>(s: seq<T>, leq: (T, T) -> bool): seq<T> {
    if s == [] then [] else Insert(Sort(s[..|s| - 1], leq), s[|s| - 1], leq)
  }

  lemma {:induction false} InsertMultiset<T>(s: seq<T>, x: T, leq: (T, T) -> bool)
    ensures multiset(Insert(s, x, leq)) == multiset(s) + multiset{x}
  {
    if s != [] && !leq(s[|s| - 1], x) {
      InsertMultiset(s[..|s| - 1], x, leq);
      assert s == s[..|s| - 1] + [s[|s| - 1]];
    }
  }

  lemma {:induction false} InsertSorted<T(!new)>(s: seq<T>, x: T, leq: (T, T) -> bool)
    requires TotalOrder(leq) && Sorted(s, leq)
    ensures Sorted(Insert(s, x, leq), leq)
  {
    if s == [] {
    } else if leq(s[|s| - 1], x) {
      forall i | 0 <= i < |s| ensures leq(s[i], x) {
        assert leq(s[|s| - 1], s[|s| - 1]);
        assert leq(s[i], s[|s| - 1]) && Chains(leq, s[i], s[|s| - 1], x);
      }
    } else {
      var n := |s| - 1;
      var front := Insert(s[..n], x, leq);
      InsertSorted(s[..n], x, leq);
      InsertMultiset(s[..n], x, leq);
      forall i | 0 <= i < |front| ensures leq(front[i], s[n]) {
        assert front[i] in multiset(front);
        assert leq(x, s[n]);
      }
    }
  }

  lemma {:induction false} SortIsSorted<T(!new)>(s: seq<T>, leq: (T, T) -> bool)
    requires TotalOrder(leq)
    ensures Sorted(Sort(s, leq), leq) && multiset(Sort(s, leq)) == multiset(s)
  {
    hide TotalOrder, Sorted, Insert;
    if s == [] {
      NothingSorted(leq);
    } else {
      var n := |s| - 1;
      SortIsSorted(s[..n], leq);
      InsertSorted(Sort(s[..n], leq), s[n], leq);
      InsertMultiset(Sort(s[..n], leq), s[n], leq);
      assert s == s[..n] + [s[n]];
    }
  }

  lemma NothingSorted<T>(leq: (T, T) -> bool)
    ensures Sorted([], leq)
  {}

  lemma SameLength<T>(a: seq<T>, b: seq<T>)
    requires multiset(a) == multiset(b)
    ensures |a| == |b|
  {
    assert |multiset(a)| == |a| && |multiset(b)| == |b|;
  }

  lemma SortedSameLast<T(!new)>(a: seq<T>, b: seq<T>, leq: (T, T) -> bool)
    requires TotalOrder(leq) && Sorted(a, leq) && Sorted(b, leq)
    requires multiset(a) == multiset(b) && a != [] && b != []
    ensures a[|a| - 1] == b[|b| - 1]
  {
    var x, y := a[|a| - 1], b[|b| - 1];
    assert x in multiset(b) && y in multiset(a);
    var i :| 0 <= i < |b| && b[i] == x;
    var j :| 0 <= j < |a| && a[j] == y;
    assert i < |b| - 1 ==> leq(b[i], y);
    assert j < |a| - 1 ==> leq(a[j], x);
  }

  lemma WithoutLast<T>(a: seq<T>, leq: (T, T) -> bool)
    requires Sorted(a, leq) && a != []
    ensures Sorted(a[..|a| - 1], leq) && multiset(a[..|a| - 1]) == multiset(a) - multiset{a[|a| - 1]}
  {
    assert a == a[..|a| - 1] + [a[|a| - 1]];
  }

  /** A sorted list is determined by its elements. */
  lemma {:induction false} SortedUnique<T(!new)>(a: seq<T>, b: seq<T>, leq: (T, T) -> bool)
    requires TotalOrder(leq) && Sorted(a, leq) && Sorted(b, leq) && multiset(a) == multiset(b)
    ensures a == b
  {
    hide TotalOrder, Sorted;
    SameLength(a, b);
    if a != [] {
      var n := |a| - 1;
      SortedSameLast(a, b, leq);
      WithoutLast(a, leq);
      WithoutLast(b, leq);
      SortedUnique(a[..n], b[..n], leq);
      assert a == a[..n] + [a[n]] && b == b[..n] + [b[n]];
    }
  }

  lemma SortOrderFree<T(!new)>(a: seq<T>, b: seq<T>, leq: (T, T) -> bool)
    requires TotalOrder(leq) && multiset(a) == multiset(b)
    ensures Sort(a, leq) == Sort(b, leq)
  {
    SortIsSorted(a, leq);
    SortIsSorted(b, leq);
    SortedUnique(Sort(a, leq), Sort(b, leq), leq);
  }

  lemma SortOfSorted<T(!new)>(a: seq<T>, leq: (T, T) -> bool)
    requires TotalOrder(leq) && Sorted(a, leq)
    ensures Sort(a, leq) == a
  {
    SortIsSorted(a, leq);
    SortedUnique(Sort(a, leq), a, leq);
  }

  // ----- Counting

  /** How many elements are no later than `x` in the order. */
  function Count<T>(s: seq<T>, x: T, leq: (T, T) -> bool): (n: nat)
    ensures n <= |s|
  {
    if s == [] then 0 else Count(s[..|s| - 1], x, leq) + if leq(s[|s| - 1], x) then 1 else 0
  }

  lemma {:induction false} CountAppend<T>(a: seq<T>, b: seq<T>, x: T, leq: (T, T) -> bool)
    ensures Count(a + b, x, leq) == Count(a, x, leq) + Count(b, x, leq)
  {
    if b == [] {
      assert a + b == a;
    } else {
      assert (a + b)[..|a + b| - 1] == a + b[..|b| - 1];
      CountAppend(a, b[..|b| - 1], x, leq);
    }
  }

  lemma CountWithout<T>(b: seq<T>, k: nat, x: T, leq: (T, T) -> bool)
    requires k < |b|
    ensures Count(b, x, leq) == Count(b[..k] + b[k + 1..], x, leq) + if leq(b[k], x) then 1 else 0
  {
    hide Count;
    var front, back := b[..k], b[k + 1..];
    SplitAt(b, k);
    CountAppend(front, [b[k]] + back, x, leq);
    CountAppend([b[k]], back, x, leq);
    CountAppend(front, back, x, leq);
    CountOne(b[k], x, leq);
  }

  lemma SplitAt<T>(b: seq<T>, k: nat)
    requires k < |b|
    ensures b == b[..k] + ([b[k]] + b[k + 1..])
  {}

  lemma CountOne<T>(y: T, x: T, leq: (T, T) -> bool)
    ensures Count([y], x, leq) == if leq(y, x) then 1 else 0
  {
    assert [y][..0] == [];
  }

  lemma CountReplaced<T>(b: seq<T>, k: nat, v: T, x: T, leq: (T, T) -> bool)
    requires k < |b|
    ensures Count(b[k := v], x, leq) + (if leq(b[k], x) then 1 else 0) == Count(b, x, leq) + if leq(v, x) then 1 else 0
  {
    hide Count;
    CountWithout(b, k, x, leq);
    CountWithout(b[k := v], k, x, leq);
    assert b[k := v][..k] + b[k := v][k + 1..] == b[..k] + b[k + 1..];
  }

  lemma MultisetWithout<T>(b: seq<T>, k: nat)
    requires k < |b|
    ensures multiset(b[..k] + b[k + 1..]) == multiset(b) - multiset{b[k]}
  {
    assert b == b[..k] + ([b[k]] + b[k + 1..]);
  }

  lemma {:induction false} CountPermutation<T>(a: seq<T>, b: seq<T>, x: T, leq: (T, T) -> bool)
    requires multiset(a) == multiset(b)
    ensures Count(a, x, leq) == Count(b, x, leq)
  {
    SameLength(a, b);
    if a != [] {
      var n := |a| - 1;
      assert a[n] in multiset(b);
      var k :| 0 <= k < |b| && b[k] == a[n];
      MultisetWithout(b, k);
      MultisetWithout(a, n);
      assert a[..n] + a[n + 1..] == a[..n];
      CountPermutation(a[..n], b[..k] + b[k + 1..], x, leq);
      CountWithout(b, k, x, leq);
    }
  }

  /** In a sorted list the elements no later than `x` are the first ones. */
  lemma {:induction false} CountIsPosition<T(!new)>(s: seq<T>, x: T, leq: (T, T) -> bool, i: nat)
    requires TotalOrder(leq) && Sorted(s, leq)
    ensures i < Count(s, x, leq) <==> i < |s| && leq(s[i], x)
  {
    if s != [] {
      var n := |s| - 1;
      CountIsPosition(s[..n], x, leq, i);
      if leq(s[n], x) {
        CountFull(s, x, leq);
      }
    }
  }

  lemma {:induction false} CountFull<T(!new)>(s: seq<T>, x: T, leq: (T, T) -> bool)
    requires TotalOrder(leq) && Sorted(s, leq) && (s != [] ==> leq(s[|s| - 1], x))
    ensures Count(s, x, leq) == |s|
  {
    if |s| > 1 {
      assert leq(s[|s| - 2], s[|s| - 1]) && Chains(leq, s[|s| - 2], s[|s| - 1], x);
      CountFull(s[..|s| - 1], x, leq);
    }
  }

  /** `r` is at least as long as `b` and no later at any position of `b`. */
  predicate Ahead<T>(b: seq<T>, r: seq<T>, leq: (T, T) -> bool) {
    |b| <= |r| && forall i :: 0 <= i < |b| ==> leq(r[i], b[i])
  }

  /** Comparing sorted lists position by position is comparing counts. */
  lemma AheadGivesCounts<T(!new)>(b: seq<T>, r: seq<T>, leq: (T, T) -> bool, x: T)
    requires TotalOrder(leq) && Sorted(b, leq) && Sorted(r, leq) && Ahead(b, r, leq)
    ensures Count(b, x, leq) <= Count(r, x, leq)
  {
    var c := Count(b, x, leq);
    if c > 0 {
      CountIsPosition(b, x, leq, c - 1);
      CountIsPosition(r, x, leq, c - 1);
      assert Chains(leq, r[c - 1], b[c - 1], x);
    }
  }

  lemma CountsGiveAhead<T(!new)>(b: seq<T>, r: seq<T>, leq: (T, T) -> bool)
    requires TotalOrder(leq) && Sorted(b, leq) && Sorted(r, leq)
    requires forall i :: 0 <= i < |b| ==> Count(b, b[i], leq) <= Count(r, b[i], leq)
    ensures Ahead(b, r, leq)
  {
    forall i | 0 <= i < |b|
      ensures |b| <= |r| && leq(r[i], b[i])
    {
      CountReaches(b, r, leq, i);
      CountReaches(b, r, leq, |b| - 1);
    }
  }

  lemma CountReaches<T(!new)>(b: seq<T>, r: seq<T>, leq: (T, T) -> bool, i: nat)
    requires TotalOrder(leq) && Sorted(b, leq) && Sorted(r, leq)
    requires i < |b| && Count(b, b[i], leq) <= Count(r, b[i], leq)
    ensures i < |r| && leq(r[i], b[i])
  {
    assert leq(b[i], b[i]);
    CountIsPosition(b, b[i], leq, i);
    CountIsPosition(r, b[i], leq, i);
  }

  predicate Pointwise<T>(b: seq<T>, r: seq<T>, leq: (T, T) -> bool) {
    |b| == |r| && forall i :: 0 <= i < |b| ==> leq(r[i], b[i])
  }

  lemma {:induction false} PointwiseCounts<T(!new)>(b: seq<T>, r: seq<T>, leq: (T, T) -> bool, x: T)
    requires TotalOrder(leq) && Pointwise(b, r, leq)
    ensures Count(b, x, leq) <= Count(r, x, leq)
  {
    if b != [] {
      var n := |b| - 1;
      PointwiseCounts(b[..n], r[..n], leq, x);
      assert Chains(leq, r[n], b[n], x);
    }
  }

  /** Sorting preserves pointwise domination. */
  lemma SortKeepsPointwise<T(!new)>(b: seq<T>, r: seq<T>, leq: (T, T) -> bool)
    requires TotalOrder(leq) && Pointwise(b, r, leq)
    ensures Pointwise(Sort(b, leq), Sort(r, leq), leq)
  {
    SortIsSorted(b, leq);
    SortIsSorted(r, leq);
    SameLength(Sort(b, leq), b);
    SameLength(Sort(r, leq), r);
    forall x
      ensures Count(Sort(b, leq), x, leq) <= Count(Sort(r, leq), x, leq)
    {
      PointwiseCounts(b, r, leq, x);
      CountPermutation(Sort(b, leq), b, x, leq);
      CountPermutation(Sort(r, leq), r, x, leq);
    }
    CountsGiveAhead(Sort(b, leq), Sort(r, leq), leq);
  }
}
