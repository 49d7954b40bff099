/** The complexity gate's frozen list: what the positional comparison of sorted function sizes decides. */
module Ratchet {
  import opened Options
  import opened Sorting

  /** `FLOOR_LINES`. */
  const FLOOR: int := 100

  /** Descending order. */
  predicate Longer(a: int, b: int) {
    a >= b
  }

  datatype Violation =
    | NewFile
    | Grown(position: nat, size: int, recorded: int)
    | Extra(count: nat)

  function Filter(sizes: seq<int>): (over: seq<int>)
    ensures forall x :: x in over ==> x > FLOOR
  {
    if sizes == [] then []
    else Filter(sizes[..|sizes| - 1]) + if sizes[|sizes| - 1] > FLOOR then [sizes[|sizes| - 1]] else []
  }

  /** What the gate measures for a file whose functions have these sizes. */
  function Bodies(sizes: seq<int>): seq<int> {
    Sort(Filter(sizes), Longer)
  }

  /** The violations reported for one file, in order. */
  function GrownFrom(bodies: seq<int>, recorded: seq<int>, position: nat): seq<Violation>
    decreases |bodies| - position
  {
    if position >= |bodies| || position >= |recorded| then []
    else
      (if bodies[position] > recorded[position] then [Grown(position, bodies[position], recorded[position])] else [])
        + GrownFrom(bodies, recorded, position + 1)
  }

  function Report(bodies: seq<int>, recorded: Option<seq<int>>): seq<Violation> {
    match recorded
    case None => [NewFile]
    case Some(sizes) =>
      GrownFrom(bodies, sizes, 0) + if |bodies| > |sizes| then [Extra(|bodies| - |sizes|)] else []
  }

  method CompareFile(bodies: seq<int>, recorded: Option<seq<int>>) returns (violations: seq<Violation>)
    ensures violations == Report(bodies, recorded)
  {
    if recorded.None? {
      return [NewFile];
    }
    var sizes := recorded.value;
    var compared := if |sizes| < |bodies| then |sizes| else |bodies|;
    violations := [];
    for position := 0 to compared
      invariant GrownFrom(bodies, sizes, 0) == violations + GrownFrom(bodies, sizes, position)
    {
      ghost var rest := GrownFrom(bodies, sizes, position + 1);
      if bodies[position] > sizes[position] {
        var grown := Grown(position, bodies[position], sizes[position]);
        assert violations + ([grown] + rest) == (violations + [grown]) + rest;
        violations := violations + [grown];
      } else {
        assert [] + rest == rest;
      }
    }
    if |bodies| > |sizes| {
      violations := violations + [Extra(|bodies| - |sizes|)];
    }
  }

  // ----- What an empty report means

  lemma LongerIsTotal()
    ensures TotalOrder(Longer)
  {}

  lemma {:induction false} GrownNone(bodies: seq<int>, recorded: seq<int>, position: nat)
    ensures GrownFrom(bodies, recorded, position) == [] <==>
            forall i :: position <= i < |bodies| && i < |recorded| ==> bodies[i] <= recorded[i]
    decreases |bodies| - position
  {
    if position < |bodies| && position < |recorded| {
      GrownNone(bodies, recorded, position + 1);
    }
  }

  /** No violation: the list is no longer, and no size above the one recorded at its place. */
  lemma ReportEmpty(bodies: seq<int>, recorded: seq<int>)
    ensures Report(bodies, Some(recorded)) == [] <==> Ahead(bodies, recorded, Longer)
  {
    GrownNone(bodies, recorded, 0);
  }

  /** How many functions are longer than `t` lines. */
  function LongerThan(sizes: seq<int>, t: int): nat {
    Count(sizes, t + 1, Longer)
  }

  /** For sorted lists a report is empty exactly when at no threshold there are more long functions than recorded. */
  lemma RatchetIsThresholds(bodies: seq<int>, recorded: seq<int>)
    requires Sorted(bodies, Longer) && Sorted(recorded, Longer) && forall i :: 0 <= i < |bodies| ==> bodies[i] > FLOOR
    ensures Report(bodies, Some(recorded)) == [] <==>
            forall t :: t >= FLOOR ==> LongerThan(bodies, t) <= LongerThan(recorded, t)
  {
    LongerIsTotal();
    ReportEmpty(bodies, recorded);
    if Ahead(bodies, recorded, Longer) {
      forall t
        ensures LongerThan(bodies, t) <= LongerThan(recorded, t)
      {
        AheadGivesCounts(bodies, recorded, Longer, t + 1);
      }
    }
    if forall t :: t >= FLOOR ==> LongerThan(bodies, t) <= LongerThan(recorded, t) {
      forall i | 0 <= i < |bodies|
        ensures Count(bodies, bodies[i], Longer) <= Count(recorded, bodies[i], Longer)
      {
        assert LongerThan(bodies, bodies[i] - 1) <= LongerThan(recorded, bodies[i] - 1);
      }
      CountsGiveAhead(bodies, recorded, Longer);
    }
  }

  lemma {:induction false} FilterCounts(sizes: seq<int>, t: int)
    requires t >= FLOOR
    ensures LongerThan(Filter(sizes), t) == LongerThan(sizes, t)
  {
    if sizes != [] {
      var n := |sizes| - 1;
      FilterCounts(sizes[..n], t);
      if sizes[n] > FLOOR {
        assert Filter(sizes)[..|Filter(sizes)| - 1] == Filter(sizes[..n]);
      } else {
        assert Filter(sizes) == Filter(sizes[..n]);
      }
    }
  }

  lemma SameCounts(a: seq<int>, b: seq<int>, t: int)
    requires multiset(a) == multiset(b)
    ensures LongerThan(a, t) == LongerThan(b, t)
  {
    CountPermutation(a, b, t + 1, Longer);
  }

  lemma SameElements(a: seq<int>, b: seq<int>)
    requires multiset(a) == multiset(b)
    ensures forall i :: 0 <= i < |a| ==> a[i] in b
  {
    forall i | 0 <= i < |a|
      ensures a[i] in b
    {
      assert a[i] in multiset(b);
    }
  }

  lemma BodiesSorted(sizes: seq<int>)
    ensures Sorted(Bodies(sizes), Longer) && multiset(Bodies(sizes)) == multiset(Filter(sizes))
  {
    hide Sort, Sorted;
    LongerIsTotal();
    SortIsSorted(Filter(sizes), Longer);
  }

  lemma BodiesFacts(sizes: seq<int>)
    ensures Sorted(Bodies(sizes), Longer)
    ensures forall i :: 0 <= i < |Bodies(sizes)| ==> Bodies(sizes)[i] > FLOOR
    ensures forall t :: t >= FLOOR ==> LongerThan(Bodies(sizes), t) == LongerThan(sizes, t)
  {
    hide Sorted, LongerThan, Bodies, Filter;
    BodiesSorted(sizes);
    SameElements(Bodies(sizes), Filter(sizes));
    forall t | t >= FLOOR
      ensures LongerThan(Bodies(sizes), t) == LongerThan(sizes, t)
    {
      SameCounts(Bodies(sizes), Filter(sizes), t);
      FilterCounts(sizes, t);
    }
  }

  /** The gate, whatever the order of the functions: a file passes against the sizes recorded for it from `base`. */
  predicate Passes(sizes: seq<int>, base: seq<int>) {
    Report(Bodies(sizes), Some(Bodies(base))) == []
  }

  /** A file passes exactly when, at every threshold from the floor up, it has no more long functions than the base. */
  lemma PassesIffThresholds(sizes: seq<int>, base: seq<int>)
    ensures Passes(sizes, base) <==> forall t :: t >= FLOOR ==> LongerThan(sizes, t) <= LongerThan(base, t)
  {
    BodiesFacts(sizes);
    BodiesFacts(base);
    RatchetIsThresholds(Bodies(sizes), Bodies(base));
  }

  /** What passes against a base that itself passes against an older one passes against the older one. */
  lemma RatchetTransitive(a: seq<int>, b: seq<int>, c: seq<int>)
    ensures Passes(a, a)
    ensures Passes(a, b) && Passes(b, c) ==> Passes(a, c)
  {
    PassesIffThresholds(a, a);
    PassesIffThresholds(a, b);
    PassesIffThresholds(b, c);
    PassesIffThresholds(a, c);
    if Passes(a, b) && Passes(b, c) {
      forall t | t >= FLOOR
        ensures LongerThan(a, t) <= LongerThan(c, t)
      {
        assert LongerThan(a, t) <= LongerThan(b, t) && LongerThan(b, t) <= LongerThan(c, t);
      }
    }
  }

  /** Removing a function, or shortening one, never turns a pass into a failure. */
  lemma ImprovementPasses(sizes: seq<int>, base: seq<int>, i: nat, shorter: int)
    requires i < |sizes| && shorter <= sizes[i] && Passes(sizes, base)
    ensures Passes(sizes[..i] + sizes[i + 1..], base)
    ensures Passes(sizes[i := shorter], base)
  {
    hide Passes, Count;
    var removed, shortened := sizes[..i] + sizes[i + 1..], sizes[i := shorter];
    PassesIffThresholds(sizes, base);
    forall t | t >= FLOOR
      ensures LongerThan(removed, t) <= LongerThan(base, t) && LongerThan(shortened, t) <= LongerThan(base, t)
    {
      CountWithout(sizes, i, t + 1, Longer);
      CountReplaced(sizes, i, shorter, t + 1, Longer);
      assert LongerThan(sizes, t) <= LongerThan(base, t);
    }
    PassesIffThresholds(removed, base);
    PassesIffThresholds(shortened, base);
  }

  /**
   * A function over the floor split in two that are both over it fails against every record that has no more functions
   * over the floor than the file had.
   */
  lemma SplitFails(sizes: seq<int>, i: nat, first: int, second: int, base: seq<int>)
    requires i < |sizes| && first > FLOOR && second > FLOOR
    requires LongerThan(base, FLOOR) <= LongerThan(sizes, FLOOR)
    ensures !Passes(sizes[i := first] + [second], base)
  {
    hide Passes, Count;
    SplitCounts(sizes, i, first, second, FLOOR);
    PassesIffThresholds(sizes[i := first] + [second], base);
  }

  lemma SplitCounts(sizes: seq<int>, i: nat, first: int, second: int, t: int)
    requires i < |sizes|
    ensures LongerThan(sizes[i := first] + [second], t) + (if sizes[i] > t then 1 else 0) ==
            LongerThan(sizes, t) + (if first > t then 1 else 0) + if second > t then 1 else 0
  {
    hide Count;
    CountAppend(sizes[i := first], [second], t + 1, Longer);
    CountReplaced(sizes, i, first, t + 1, Longer);
    CountOne(second, t + 1, Longer);
  }

  /**
   * Where the record leaves room a split can pass: it does exactly when at every threshold from the floor up there is
   * room for what the split adds, that is, for each part longer than it beyond the function that is gone.
   */
  lemma SplitPassesIff(sizes: seq<int>, i: nat, first: int, second: int, base: seq<int>)
    requires i < |sizes|
    ensures
      Passes(sizes[i := first] + [second], base) <==>
      forall t :: t >= FLOOR ==>
        LongerThan(sizes, t) + (if first > t then 1 else 0) + (if second > t then 1 else 0)
        <= LongerThan(base, t) + if sizes[i] > t then 1 else 0
  {
    hide Passes, Count, LongerThan;
    var split := sizes[i := first] + [second];
    PassesIffThresholds(split, base);
    forall t
      ensures LongerThan(split, t) <= LongerThan(base, t) <==>
              LongerThan(sizes, t) + (if first > t then 1 else 0) + (if second > t then 1 else 0)
              <= LongerThan(base, t) + if sizes[i] > t then 1 else 0
    {
      SplitCounts(sizes, i, first, second, t);
    }
  }

  /** A file below its record whose one long function is split in two long ones, and passes. */
  lemma SplitWithinRecord()
    ensures Passes([200], [200, 150]) && Passes([200][0 := 101] + [101], [200, 150])
  {
    forall t
      ensures LongerThan([200], t) <= LongerThan([200, 150], t) && LongerThan([101, 101], t) <= LongerThan([200, 150], t)
    {
      CountTwo(200, 150, t + 1);
      CountTwo(101, 101, t + 1);
      CountOne(200, t + 1, Longer);
    }
    assert [200][0 := 101] + [101] == [101, 101];
    PassesIffThresholds([200], [200, 150]);
    PassesIffThresholds([101, 101], [200, 150]);
  }

  lemma CountTwo(a: int, b: int, x: int)
    ensures Count([a, b], x, Longer) == (if a >= x then 1 else 0) + if b >= x then 1 else 0
  {
    hide Count;
    assert [a, b] == [a] + [b];
    CountAppend([a], [b], x, Longer);
    CountOne(a, x, Longer);
    CountOne(b, x, Longer);
  }

  // ----- The whole gate

  /** The exit code: 2 if nothing was measured, 1 for any violation, 0 otherwise. */
  method Gate(measured: map<string, seq<int>>, baseline: map<string, seq<int>>) returns (code: nat)
    ensures code == 2 <==> measured == map[]
    ensures code == 0 <==>
            measured != map[]
            && forall path :: path in measured ==> path in baseline && Ahead(measured[path], baseline[path], Longer)
    ensures code <= 2
  {
    if measured == map[] {
      return 2;
    }
    var violations: seq<Violation> := [];
    var todo := measured.Keys;
    while todo != {}
      invariant todo <= measured.Keys
      invariant violations == [] <==> forall path :: path in measured.Keys - todo ==>
                  path in baseline && Ahead(measured[path], baseline[path], Longer)
    {
      var path :| path in todo;
      var recorded := if path in baseline then Some(baseline[path]) else None;
      var found := CompareFile(measured[path], recorded);
      if path in baseline {
        ReportEmpty(measured[path], baseline[path]);
      }
      violations := violations + found;
      todo := todo - {path};
    }
    code := if violations == [] then 0 else 1;
  }
}
