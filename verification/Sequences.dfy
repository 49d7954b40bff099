/** What several gates need of sequences: sums, two adjacent characters, and dictionaries of lists. */
module Sequences {
  import opened Sorting

  predicate PairAt(line: string, index: nat, first: char, second: char) {
    index + 1 < |line| && line[index] == first && line[index + 1] == second
  }

  /** `dictionary.get(key, [])`. */
  function Get<K, V>(m: map<K, seq<V>>, key: K): seq<V> {
    if key in m then m[key] else []
  }

  function Sum(sizes: seq<int>): int {
    if sizes == [] then 0 else Sum(sizes[..|sizes| - 1]) + sizes[|sizes| - 1]
  }

  lemma {:induction false} SumAppend(a: seq<int>, b: seq<int>)
    ensures Sum(a + b) == Sum(a) + Sum(b)
  {
    if b == [] {
      assert a + b == a;
    } else {
      assert (a + b)[..|a + b| - 1] == a + b[..|b| - 1];
      SumAppend(a, b[..|b| - 1]);
    }
  }

  lemma SumOne(size: int)
    ensures Sum([size]) == size
  {
    assert [size][..0] == [];
  }

  lemma SumNone()
    ensures Sum([]) == 0
  {}

  lemma SumCons(size: int, rest: seq<int>)
    ensures Sum([size] + rest) == size + Sum(rest)
  {
    SumAppend([size], rest);
    SumOne(size);
  }

  lemma SumWithout(b: seq<int>, k: nat)
    requires k < |b|
    ensures Sum(b) == Sum(b[..k] + b[k + 1..]) + b[k]
  {
    hide Sum;
    assert b == b[..k] + ([b[k]] + b[k + 1..]);
    SumAppend(b[..k], [b[k]] + b[k + 1..]);
    SumAppend([b[k]], b[k + 1..]);
    SumAppend(b[..k], b[k + 1..]);
    SumOne(b[k]);
  }

  lemma {:induction false} SumPermutation(a: seq<int>, b: seq<int>)
    requires multiset(a) == multiset(b)
    ensures Sum(a) == Sum(b)
  {
    SameLength(a, b);
    if a != [] {
      var n := |a| - 1;
      assert a[n] in multiset(b);
      var k :| 0 <= k < |b| && b[k] == a[n];
      MultisetWithout(b, k);
      MultisetWithout(a, n);
      assert a[..n] + a[n + 1..] == a[..n];
      SumPermutation(a[..n], b[..k] + b[k + 1..]);
      SumWithout(b, k);
    }
  }
}
