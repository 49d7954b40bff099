/** The performance gate: medians of samples against a recorded baseline. Floating point is modelled by reals. */
module Verdict {
  import opened Sequences
  import opened Sorting

  type Readings = map<string, real>
  type Samples = map<string, seq<real>>

  const THROUGHPUT := "throughputPerSecond"
  const WORKING_SET := "workingSetPeakKib"
  const POINTWISE := "nanosecondsPerOperation"
  const LATENCY_KEYS := ["p50Microseconds", "p95Microseconds", "p99Microseconds"]
  const SAMPLED_KEYS := [THROUGHPUT] + LATENCY_KEYS + [WORKING_SET]

  /** The command line's ratios; `latency` has one per latency key. */
  datatype Limits = Limits(throughput: real, latency: seq<real>, workingSet: real)

  datatype Violation = NoBaseline(key: string) | NoSamples(key: string) | OutOfRange(key: string)

  predicate AtMost(a: real, b: real) {
    a <= b
  }

  lemma AtMostIsTotal()
    ensures TotalOrder(AtMost)
  {}

  function Median(values: seq<real>): real
    requires values != []
  {
    MedianOfSorted(Sort(values, AtMost))
  }

  /** The middle value, or the mean of the two in the middle. */
  function MedianOfSorted(ordered: seq<real>): real {
    var middle := |ordered| / 2;
    if ordered == [] then 0.0
    else if |ordered| % 2 == 1 then ordered[middle]
    else (ordered[middle - 1] + ordered[middle]) / 2.0
  }

  // ----- Collecting samples

  function Append(samples: Samples, incoming: Readings, keys: seq<string>): Samples {
    if keys == [] then samples
    else
      var before := Append(samples, incoming, keys[..|keys| - 1]);
      var key := keys[|keys| - 1];
      if key in incoming then before[key := Get(before, key) + [incoming[key]]] else before
  }

  method AccumulateMeasurement(samples: Samples, incoming: Readings) returns (result: Samples)
    ensures result == Append(samples, incoming, SAMPLED_KEYS)
  {
    result := samples;
    for i := 0 to |SAMPLED_KEYS|
      invariant result == Append(samples, incoming, SAMPLED_KEYS[..i])
    {
      var key := SAMPLED_KEYS[i];
      assert SAMPLED_KEYS[..i + 1][..i] == SAMPLED_KEYS[..i];
      if key in incoming {
        result := result[key := Get(result, key) + [incoming[key]]];
      }
    }
    assert SAMPLED_KEYS[..|SAMPLED_KEYS|] == SAMPLED_KEYS;
  }

  function Collect(runs: seq<Readings>): Samples {
    if runs == [] then map[] else Append(Collect(runs[..|runs| - 1]), runs[|runs| - 1], SAMPLED_KEYS)
  }

  // ----- The verdict on one item

  /** Python's truth value of `expected.get(key)`: absent and zero count alike. */
  predicate Recorded(expected: Readings, key: string) {
    key in expected && expected[key] != 0.0
  }

  function JudgeThroughput(expected: Readings, samples: Samples, ratio: real): seq<Violation> {
    var taken := Get(samples, THROUGHPUT);
    if !Recorded(expected, THROUGHPUT) then []
    else if taken == [] then [NoSamples(THROUGHPUT)]
    else if Median(taken) >= expected[THROUGHPUT] * ratio then [] else [OutOfRange(THROUGHPUT)]
  }

  function JudgeLatency(expected: Readings, samples: Samples, key: string, ratio: real): seq<Violation> {
    var taken := Get(samples, key);
    if !Recorded(expected, key) then [NoBaseline(key)]
    else if taken == [] then [NoSamples(key)]
    else if Median(taken) <= expected[key] * ratio then [] else [OutOfRange(key)]
  }

  function JudgeLatencies(expected: Readings, samples: Samples, ratios: seq<real>, n: nat): seq<Violation>
    requires n <= |LATENCY_KEYS| == |ratios|
  {
    if n == 0 then []
    else JudgeLatencies(expected, samples, ratios, n - 1) + JudgeLatency(expected, samples, LATENCY_KEYS[n - 1], ratios[n - 1])
  }

  function JudgeSweep(expected: Readings, samples: Samples, ratio: real): seq<Violation> {
    var taken := Get(samples, WORKING_SET);
    if !Recorded(expected, WORKING_SET) then []
    else if taken == [] then [NoSamples(WORKING_SET)]
    else if Median(taken) <= expected[WORKING_SET] * ratio then [] else [OutOfRange(WORKING_SET)]
  }

  function Judge(isSweep: bool, expected: Readings, samples: Samples, limits: Limits): seq<Violation>
    requires |limits.latency| == |LATENCY_KEYS|
  {
    if isSweep then JudgeSweep(expected, samples, limits.workingSet)
    else
      JudgeThroughput(expected, samples, limits.throughput)
        + if POINTWISE in expected then
            if Recorded(expected, THROUGHPUT) then [] else [NoBaseline(THROUGHPUT)]
          else JudgeLatencies(expected, samples, limits.latency, |LATENCY_KEYS|)
  }

  method CompareSweepTier(expected: Readings, samples: Samples, ratio: real) returns (violations: seq<Violation>)
    ensures violations == JudgeSweep(expected, samples, ratio)
  {
    violations := [];
    var peakSamples := Get(samples, WORKING_SET);
    if Recorded(expected, WORKING_SET) && peakSamples == [] {
      violations := violations + [NoSamples(WORKING_SET)];
    } else if Recorded(expected, WORKING_SET) {
      var actualPeak, maximum := Median(peakSamples), expected[WORKING_SET] * ratio;
      if actualPeak > maximum {
        violations := violations + [OutOfRange(WORKING_SET)];
      }
    }
  }

  method CompareMeasurement(isSweep: bool, expected: Readings, samples: Samples, limits: Limits) returns (violations: seq<Violation>)
    requires |limits.latency| == |LATENCY_KEYS|
    ensures violations == Judge(isSweep, expected, samples, limits)
  {
    hide Median, Get, JudgeLatencies;
    if isSweep {
      violations := CompareSweepTier(expected, samples, limits.workingSet);
      return;
    }
    violations := [];
    var throughputSamples := Get(samples, THROUGHPUT);
    if Recorded(expected, THROUGHPUT) && throughputSamples == [] {
      violations := violations + [NoSamples(THROUGHPUT)];
    } else if Recorded(expected, THROUGHPUT) {
      var actual, minimum := Median(throughputSamples), expected[THROUGHPUT] * limits.throughput;
      if actual < minimum {
        violations := violations + [OutOfRange(THROUGHPUT)];
      }
    }
    ghost var first := JudgeThroughput(expected, samples, limits.throughput);
    assert violations == first;
    hide JudgeThroughput, JudgeSweep, Recorded;
    if POINTWISE in expected {
      if !Recorded(expected, THROUGHPUT) {
        violations := violations + [NoBaseline(THROUGHPUT)];
      }
    } else {
      NoLatencies(expected, samples, limits.latency);
      for i := 0 to |LATENCY_KEYS|
        invariant violations == first + JudgeLatencies(expected, samples, limits.latency, i)
      {
        ghost var before := JudgeLatencies(expected, samples, limits.latency, i);
        OneMoreLatency(expected, samples, limits.latency, i);
        var found := CompareLatency(expected, samples, LATENCY_KEYS[i], limits.latency[i]);
        Regroup(first, before, found);
        violations := violations + found;
      }
    }
  }

  lemma Regroup(a: seq<Violation>, b: seq<Violation>, c: seq<Violation>)
    ensures a + (b + c) == (a + b) + c
  {}

  lemma NoLatencies(expected: Readings, samples: Samples, ratios: seq<real>)
    requires |ratios| == |LATENCY_KEYS|
    ensures JudgeLatencies(expected, samples, ratios, 0) == []
  {}

  lemma OneMoreLatency(expected: Readings, samples: Samples, ratios: seq<real>, i: nat)
    requires i < |LATENCY_KEYS| == |ratios|
    ensures JudgeLatencies(expected, samples, ratios, i + 1) ==
            JudgeLatencies(expected, samples, ratios, i) + JudgeLatency(expected, samples, LATENCY_KEYS[i], ratios[i])
  {}

  /** The body of the loop over the latency keys. */
  method CompareLatency(expected: Readings, samples: Samples, key: string, ratioLimit: real) returns (found: seq<Violation>)
    ensures found == JudgeLatency(expected, samples, key, ratioLimit)
  {
    var latencySamples := Get(samples, key);
    if !Recorded(expected, key) {
      return [NoBaseline(key)];
    }
    if latencySamples == [] {
      return [NoSamples(key)];
    }
    var actual, maximum := Median(latencySamples), expected[key] * ratioLimit;
    found := if actual <= maximum then [] else [OutOfRange(key)];
  }

  // ----- The median

  /** At least half of the values lie on either side of the median. */
  lemma MedianHalves(values: seq<real>)
    requires values != []
    ensures 2 * Count(values, Median(values), AtMost) >= |values|
    ensures 2 * Count(values, Median(values), AtLeast) >= |values|
  {
    AtMostIsTotal();
    var ordered, middle := Sort(values, AtMost), |values| / 2;
    SortIsSorted(values, AtMost);
    SameLength(ordered, values);
    MedianBetween(ordered);
    CountPermutation(ordered, values, Median(values), AtMost);
    CountPermutation(ordered, values, Median(values), AtLeast);
    CountIsPosition(ordered, Median(values), AtMost, (|values| - 1) / 2);
    CountFrom(ordered, Median(values), middle);
  }

  predicate AtLeast(a: real, b: real) {
    a >= b
  }

  lemma MedianBetween(ordered: seq<real>)
    requires ordered != [] && Sorted(ordered, AtMost)
    ensures ordered[(|ordered| - 1) / 2] <= MedianOfSorted(ordered) <= ordered[|ordered| / 2]
  {
    if |ordered| % 2 == 0 {
      assert AtMost(ordered[|ordered| / 2 - 1], ordered[|ordered| / 2]);
    }
  }

  lemma {:induction false} CountFrom(ordered: seq<real>, x: real, i: nat)
    requires Sorted(ordered, AtMost) && i < |ordered| && ordered[i] >= x
    ensures Count(ordered, x, AtLeast) >= |ordered| - i
  {
    var n := |ordered| - 1;
    assert i < n ==> AtMost(ordered[i], ordered[n]);
    if i < n {
      CountFrom(ordered[..n], x, i);
    }
  }

  /** Raising samples never lowers the median. */
  lemma MedianMonotone(lower: seq<real>, higher: seq<real>)
    requires lower != [] && |lower| == |higher| && forall i :: 0 <= i < |lower| ==> lower[i] <= higher[i]
    ensures Median(lower) <= Median(higher)
  {
    hide Sort, TotalOrder, Sorted;
    AtMostIsTotal();
    SortKeepsPointwise(higher, lower, AtMost);
    SortIsSorted(lower, AtMost);
    SameLength(Sort(lower, AtMost), lower);
    var l, h := Sort(lower, AtMost), Sort(higher, AtMost);
    var middle := |l| / 2;
    assert AtMost(l[middle], h[middle]);
    assert middle > 0 ==> AtMost(l[middle - 1], h[middle - 1]);
  }

  // ----- The verdict

  /** The second set of samples is of the same runs, no better: throughput no higher, latency and working set no lower. */
  predicate NoBetter(better: Samples, worse: Samples) {
    && ShiftedUp(Get(worse, THROUGHPUT), Get(better, THROUGHPUT))
    && (forall i :: 0 <= i < |LATENCY_KEYS| ==> ShiftedUp(Get(better, LATENCY_KEYS[i]), Get(worse, LATENCY_KEYS[i])))
    && ShiftedUp(Get(better, WORKING_SET), Get(worse, WORKING_SET))
  }

  predicate ShiftedUp(lower: seq<real>, higher: seq<real>) {
    |lower| == |higher| && forall i :: 0 <= i < |lower| ==> lower[i] <= higher[i]
  }

  lemma {:induction false} LatenciesMonotone(expected: Readings, better: Samples, worse: Samples, ratios: seq<real>, n: nat)
    requires n <= |LATENCY_KEYS| == |ratios| && NoBetter(better, worse)
    requires JudgeLatencies(expected, worse, ratios, n) == []
    ensures JudgeLatencies(expected, better, ratios, n) == []
  {
    hide Get, JudgeLatency, ShiftedUp;
    if n > 0 {
      LatenciesMonotone(expected, better, worse, ratios, n - 1);
      LatencyMonotone(expected, better, worse, LATENCY_KEYS[n - 1], ratios[n - 1]);
    }
  }

  lemma LatencyMonotone(expected: Readings, better: Samples, worse: Samples, key: string, ratio: real)
    requires ShiftedUp(Get(better, key), Get(worse, key)) && JudgeLatency(expected, worse, key, ratio) == []
    ensures JudgeLatency(expected, better, key, ratio) == []
  {
    hide Median, Get;
    if Get(better, key) != [] {
      MedianMonotone(Get(better, key), Get(worse, key));
    }
  }

  lemma ThroughputMonotone(expected: Readings, better: Samples, worse: Samples, ratio: real)
    requires ShiftedUp(Get(worse, THROUGHPUT), Get(better, THROUGHPUT)) && JudgeThroughput(expected, worse, ratio) == []
    ensures JudgeThroughput(expected, better, ratio) == []
  {
    hide Median, Get;
    if Get(better, THROUGHPUT) != [] {
      MedianMonotone(Get(worse, THROUGHPUT), Get(better, THROUGHPUT));
    }
  }

  lemma SweepMonotone(expected: Readings, better: Samples, worse: Samples, ratio: real)
    requires ShiftedUp(Get(better, WORKING_SET), Get(worse, WORKING_SET)) && JudgeSweep(expected, worse, ratio) == []
    ensures JudgeSweep(expected, better, ratio) == []
  {
    hide Median, Get;
    if Get(better, WORKING_SET) != [] {
      MedianMonotone(Get(better, WORKING_SET), Get(worse, WORKING_SET));
    }
  }

  /** Improving any reading never turns a pass into a failure. */
  lemma {:induction false} VerdictMonotone(isSweep: bool, expected: Readings, better: Samples, worse: Samples, limits: Limits)
    requires |limits.latency| == |LATENCY_KEYS| && NoBetter(better, worse)
    requires Judge(isSweep, expected, worse, limits) == []
    ensures Judge(isSweep, expected, better, limits) == []
  {
    hide JudgeSweep, JudgeThroughput, JudgeLatencies, Recorded, ShiftedUp, Get;
    if isSweep {
      SweepMonotone(expected, better, worse, limits.workingSet);
    } else {
      ThroughputMonotone(expected, better, worse, limits.throughput);
      if POINTWISE !in expected {
        LatenciesMonotone(expected, better, worse, limits.latency, |LATENCY_KEYS|);
      }
    }
  }

  /** The readings of one key over the runs that have it. */
  function Column(runs: seq<Readings>, key: string): seq<real> {
    if runs == [] then []
    else Column(runs[..|runs| - 1], key) + if key in runs[|runs| - 1] then [runs[|runs| - 1][key]] else []
  }

  lemma {:induction false} AppendGet(samples: Samples, incoming: Readings, keys: seq<string>, key: string)
    requires forall i, j :: 0 <= i < j < |keys| ==> keys[i] != keys[j]
    ensures Get(Append(samples, incoming, keys), key) ==
            Get(samples, key) + if key in keys && key in incoming then [incoming[key]] else []
  {
    if keys != [] {
      var n := |keys| - 1;
      AppendGet(samples, incoming, keys[..n], key);
      assert keys == keys[..n] + [keys[n]];
    }
  }

  lemma {:induction false} CollectGet(runs: seq<Readings>, key: string)
    requires key in SAMPLED_KEYS
    ensures Get(Collect(runs), key) == Column(runs, key)
  {
    if runs != [] {
      CollectGet(runs[..|runs| - 1], key);
      AppendGet(Collect(runs[..|runs| - 1]), runs[|runs| - 1], SAMPLED_KEYS, key);
    }
  }

  lemma {:induction false} ColumnAppend(a: seq<Readings>, b: seq<Readings>, key: string)
    ensures Column(a + b, key) == Column(a, key) + Column(b, key)
  {
    if b == [] {
      assert a + b == a;
    } else {
      var n := |b| - 1;
      assert (a + b)[..|a + b| - 1] == a + b[..n];
      ColumnAppend(a, b[..n], key);
    }
  }

  lemma ColumnWithout(b: seq<Readings>, k: nat, key: string)
    requires k < |b|
    ensures multiset(Column(b, key)) ==
            multiset(Column(b[..k] + b[k + 1..], key)) + multiset(if key in b[k] then [b[k][key]] else [])
  {
    assert b == b[..k] + ([b[k]] + b[k + 1..]);
    ColumnAppend(b[..k], [b[k]] + b[k + 1..], key);
    ColumnAppend([b[k]], b[k + 1..], key);
    ColumnAppend(b[..k], b[k + 1..], key);
    assert [b[k]][..0] == [];
  }

  lemma {:induction false} ColumnPermutation(a: seq<Readings>, b: seq<Readings>, key: string)
    requires multiset(a) == multiset(b)
    ensures multiset(Column(a, key)) == multiset(Column(b, key))
  {
    SameLength(a, b);
    if a != [] {
      var n := |a| - 1;
      assert a[n] in multiset(b);
      var k :| 0 <= k < |b| && b[k] == a[n];
      MultisetWithout(b, k);
      MultisetWithout(a, n);
      assert a[..n] + a[n + 1..] == a[..n];
      ColumnPermutation(a[..n], b[..k] + b[k + 1..], key);
      ColumnWithout(a, n, key);
      ColumnWithout(b, k, key);
    }
  }

  lemma MedianOrderFree(a: seq<real>, b: seq<real>)
    requires multiset(a) == multiset(b) && a != []
    ensures b != [] && Median(a) == Median(b)
  {
    AtMostIsTotal();
    SameLength(a, b);
    SortOrderFree(a, b, AtMost);
  }

  /** The order in which the measured files are given does not matter. */
  lemma VerdictOrderFree(isSweep: bool, expected: Readings, runs: seq<Readings>, shuffled: seq<Readings>, limits: Limits)
    requires |limits.latency| == |LATENCY_KEYS| && multiset(runs) == multiset(shuffled)
    ensures Judge(isSweep, expected, Collect(runs), limits) == Judge(isSweep, expected, Collect(shuffled), limits)
  {
    hide Median, Collect;
    var a, b := Collect(runs), Collect(shuffled);
    forall i | 0 <= i < |SAMPLED_KEYS|
      ensures SameVerdictOn(a, b, SAMPLED_KEYS[i])
    {
      CollectSame(runs, shuffled, SAMPLED_KEYS[i]);
    }
    assert SAMPLED_KEYS[0] == THROUGHPUT && SAMPLED_KEYS[4] == WORKING_SET;
    assert SAMPLED_KEYS[1] == LATENCY_KEYS[0] && SAMPLED_KEYS[2] == LATENCY_KEYS[1] && SAMPLED_KEYS[3] == LATENCY_KEYS[2];
    LatenciesSame(expected, a, b, limits.latency, |LATENCY_KEYS|);
  }

  /** Both have samples of the key with one median, or neither has any. */
  ghost predicate SameVerdictOn(a: Samples, b: Samples, key: string) {
    (Get(a, key) == [] <==> Get(b, key) == []) && (Get(a, key) != [] && Get(b, key) != [] ==> Median(Get(a, key)) == Median(Get(b, key)))
  }

  lemma CollectSame(runs: seq<Readings>, shuffled: seq<Readings>, key: string)
    requires multiset(runs) == multiset(shuffled) && key in SAMPLED_KEYS
    ensures SameVerdictOn(Collect(runs), Collect(shuffled), key)
  {
    hide Median;
    CollectGet(runs, key);
    CollectGet(shuffled, key);
    ColumnPermutation(runs, shuffled, key);
    SameLength(Column(runs, key), Column(shuffled, key));
    if Column(runs, key) != [] {
      MedianOrderFree(Column(runs, key), Column(shuffled, key));
    }
  }

  lemma {:induction false} LatenciesSame(expected: Readings, a: Samples, b: Samples, ratios: seq<real>, n: nat)
    requires n <= |LATENCY_KEYS| == |ratios|
    requires forall i :: 0 <= i < |LATENCY_KEYS| ==> SameVerdictOn(a, b, LATENCY_KEYS[i])
    ensures JudgeLatencies(expected, a, ratios, n) == JudgeLatencies(expected, b, ratios, n)
  {
    hide Median;
    if n > 0 {
      LatenciesSame(expected, a, b, ratios, n - 1);
      assert SameVerdictOn(a, b, LATENCY_KEYS[n - 1]);
    }
  }
}
