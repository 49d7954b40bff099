/** The duplicate-code gate's geometry: collapsing overlapping windows and grouping hits that are translates. */
module DuplicatePlaces {
  import opened Options
  import opened Sorting

  /** Lines per window. */
  const WINDOW: nat := 8

  /** A hit: file and line. Python compares such pairs by file name first. */
  datatype Place = Place(file: string, start: int)

  // ----- The order of Python's `sorted`

  predicate StringLeq(a: string, b: string) {
    a == "" || (b != "" && (a[0] < b[0] || (a[0] == b[0] && StringLeq(a[1..], b[1..]))))
  }

  lemma {:induction false} StringTotal(a: string, b: string)
    ensures StringLeq(a, b) || StringLeq(b, a)
    ensures StringLeq(a, b) && StringLeq(b, a) ==> a == b
  {
    if a != "" && b != "" {
      StringTotal(a[1..], b[1..]);
      assert a == [a[0]] + a[1..] && b == [b[0]] + b[1..];
    }
  }

  lemma {:induction false} StringTransitive(a: string, b: string, c: string)
    requires StringLeq(a, b) && StringLeq(b, c)
    ensures StringLeq(a, c)
  {
    if a != "" && a[0] == b[0] == c[0] {
      StringTransitive(a[1..], b[1..], c[1..]);
    }
  }

  predicate Leq(p: Place, q: Place) {
    if p.file == q.file then p.start <= q.start else StringLeq(p.file, q.file)
  }

  lemma LeqOrder(p: Place, q: Place, r: Place)
    ensures Leq(p, q) || Leq(q, p)
    ensures Leq(p, q) && Leq(q, p) ==> p == q
    ensures Leq(p, q) && Leq(q, r) ==> Leq(p, r)
  {
    StringTotal(p.file, q.file);
    if Leq(p, q) && Leq(q, r) && p.file != q.file && q.file != r.file {
      StringTransitive(p.file, q.file, r.file);
      StringTotal(q.file, r.file);
    }
  }

  lemma LeqIsTotal()
    ensures TotalOrder(Leq)
  {
    forall p, q, r
      ensures Leq(p, q) || Leq(q, p)
      ensures Leq(p, q) && Leq(q, p) ==> p == q
      ensures Leq(p, q) && Leq(q, r) ==> Leq(p, r)
    {
      LeqOrder(p, q, r);
    }
  }

  lemma {:induction false} PlacesSorted(s: seq<Place>)
    ensures TotalOrder(Leq) && Sorted(Sort(s, Leq), Leq) && multiset(Sort(s, Leq)) == multiset(s)
  {
    LeqIsTotal();
    SortIsSorted(s, Leq);
  }

  // ----- Collapsing

  /** The start of the last kept place of a file. */
  function LastStart(kept: seq<Place>, file: string): Option<int> {
    if kept == [] then None
    else if kept[|kept| - 1].file == file then Some(kept[|kept| - 1].start)
    else LastStart(kept[..|kept| - 1], file)
  }

  predicate Skips(kept: seq<Place>, p: Place) {
    LastStart(kept, p.file).Some? && p.start < LastStart(kept, p.file).value + WINDOW
  }

  function Greedy(s: seq<Place>): seq<Place> {
    if s == [] then []
    else
      var kept, p := Greedy(s[..|s| - 1]), s[|s| - 1];
      if Skips(kept, p) then kept else kept + [p]
  }

  function Collapse(places: seq<Place>): seq<Place> {
    Greedy(Sort(places, Leq))
  }

  /** The dictionary has the start of the last kept place of every file. */
  ghost predicate Remembers(lastByFile: map<string, int>, kept: seq<Place>) {
    forall f :: LastStart(kept, f) == if f in lastByFile then Some(lastByFile[f]) else None
  }

  lemma RemembersNone()
    ensures Remembers(map[], [])
  {}

  lemma RemembersOneMore(lastByFile: map<string, int>, kept: seq<Place>, p: Place)
    requires Remembers(lastByFile, kept)
    ensures Remembers(lastByFile[p.file := p.start], kept + [p])
  {
    assert (kept + [p])[..|kept|] == kept;
    forall f
      ensures LastStart(kept + [p], f) == if f == p.file then Some(p.start) else LastStart(kept, f)
    {}
  }

  lemma RemembersSkip(lastByFile: map<string, int>, kept: seq<Place>, p: Place)
    requires Remembers(lastByFile, kept)
    ensures Skips(kept, p) <==> p.file in lastByFile && p.start < lastByFile[p.file] + WINDOW
  {
    assert LastStart(kept, p.file) == if p.file in lastByFile then Some(lastByFile[p.file]) else None;
  }

  method CollapsePlaces(places: seq<Place>) returns (collapsed: seq<Place>)
    ensures collapsed == Collapse(places)
  {
    hide LastStart, Leq, Sort, Skips, Remembers;
    collapsed := [];
    var lastByFile: map<string, int> := map[];
    var ordered := Sort(places, Leq);
    RemembersNone();
    for i := 0 to |ordered|
      invariant collapsed == Greedy(ordered[..i])
      invariant Remembers(lastByFile, collapsed)
    {
      var place := ordered[i];
      assert ordered[..i + 1][..i] == ordered[..i];
      RemembersSkip(lastByFile, collapsed, place);
      if place.file in lastByFile && place.start < lastByFile[place.file] + WINDOW {
        continue;
      }
      RemembersOneMore(lastByFile, collapsed, place);
      collapsed := collapsed + [place];
      lastByFile := lastByFile[place.file := place.start];
    }
    assert ordered[..|ordered|] == ordered;
  }

  // ----- What is kept

  predicate Apart(p: Place, q: Place) {
    p.file == q.file ==> q.start >= p.start + WINDOW || p.start >= q.start + WINDOW
  }

  predicate Covers(q: Place, p: Place) {
    q.file == p.file && q.start <= p.start < q.start + WINDOW
  }

  predicate PairwiseApart(s: seq<Place>) {
    forall i, j :: 0 <= i < j < |s| ==> Apart(s[i], s[j])
  }

  lemma {:induction false} LastStartIsGreatest(kept: seq<Place>, file: string)
    requires Sorted(kept, Leq)
    ensures LastStart(kept, file).Some? ==>
              (forall i :: 0 <= i < |kept| && kept[i].file == file ==> kept[i].start <= LastStart(kept, file).value)
              && exists i :: 0 <= i < |kept| && kept[i] == Place(file, LastStart(kept, file).value)
    ensures LastStart(kept, file).None? ==> forall i :: 0 <= i < |kept| ==> kept[i].file != file
  {
    if kept != [] {
      var n := |kept| - 1;
      LastStartIsGreatest(kept[..n], file);
      if kept[n].file == file {
        assert forall i :: 0 <= i < n ==> Leq(kept[i], kept[n]);
        assert kept[n] == Place(file, LastStart(kept, file).value);
      } else if LastStart(kept, file).Some? {
        var i :| 0 <= i < |kept[..n]| && kept[..n][i] == Place(file, LastStart(kept, file).value);
        assert kept[i] == Place(file, LastStart(kept, file).value);
      }
    }
  }

  lemma {:induction false} GreedyFromInput(s: seq<Place>)
    ensures forall p :: p in Greedy(s) ==> p in s
  {
    hide LastStart, Skips;
    if s != [] {
      GreedyFromInput(s[..|s| - 1]);
    }
  }

  /** Kept places are sorted and pairwise a window apart. */
  lemma {:induction false} GreedyApart(s: seq<Place>)
    requires Sorted(s, Leq)
    ensures Sorted(Greedy(s), Leq) && PairwiseApart(Greedy(s))
  {
    hide LastStart, StringLeq;
    if s != [] {
      var n := |s| - 1;
      var kept, p := Greedy(s[..n]), s[n];
      GreedyApart(s[..n]);
      GreedyFromInput(s[..n]);
      LastStartIsGreatest(kept, p.file);
      forall i | 0 <= i < |kept|
        ensures Leq(kept[i], p)
      {
        assert kept[i] in kept;
        var j :| 0 <= j < n && s[j] == kept[i];
      }
    }
  }

  ghost predicate Covered(p: Place, kept: seq<Place>) {
    exists q :: q in kept && Covers(q, p)
  }

  lemma CoveredAtEnd(s: seq<Place>)
    requires Sorted(s, Leq) && s != []
    ensures Covered(s[|s| - 1], Greedy(s))
  {
    hide StringLeq;
    var n := |s| - 1;
    var kept, p := Greedy(s[..n]), s[n];
    if Skips(kept, p) {
      GreedyApart(s[..n]);
      LastStartIsGreatest(kept, p.file);
      var i :| 0 <= i < |kept| && kept[i] == Place(p.file, LastStart(kept, p.file).value);
      KeptBefore(s, kept[i]);
      assert kept[i] in Greedy(s) && Covers(kept[i], p);
    } else {
      assert p in Greedy(s) && Covers(p, p);
    }
  }

  /** Every place has a kept one at most a window before it. */
  lemma {:induction false} GreedyCovers(s: seq<Place>)
    requires Sorted(s, Leq)
    ensures forall p :: p in s ==> Covered(p, Greedy(s))
  {
    hide LastStart, Skips, StringLeq, Covers;
    if s != [] {
      var n := |s| - 1;
      GreedyCovers(s[..n]);
      CoveredAtEnd(s);
      assert s == s[..n] + [s[n]];
      forall p | p in s[..n]
        ensures Covered(p, Greedy(s))
      {
        var q :| q in Greedy(s[..n]) && Covers(q, p);
        assert q in Greedy(s);
      }
    }
  }

  lemma KeptBefore(s: seq<Place>, q: Place)
    requires Sorted(s, Leq) && s != [] && q in Greedy(s[..|s| - 1])
    ensures Leq(q, s[|s| - 1])
  {
    hide Leq;
    GreedyFromInput(s[..|s| - 1]);
    var j :| 0 <= j < |s| - 1 && s[j] == q;
  }

  ghost predicate SetApart(s: set<Place>) {
    forall p, q :: p in s && q in s && p != q ==> Apart(p, q)
  }

  /** Places pairwise a window apart cannot share a cover, so there are no more of them than covers. */
  lemma {:induction false} CoverBound(chosen: set<Place>, covers: set<Place>)
    requires SetApart(chosen) && forall p :: p in chosen ==> exists q :: q in covers && Covers(q, p)
    ensures |chosen| <= |covers|
    decreases |chosen|
  {
    if chosen != {} {
      var p :| p in chosen;
      var q :| q in covers && Covers(q, p);
      forall x | x in chosen - {p}
        ensures exists y :: y in covers - {q} && Covers(y, x)
      {
        var y :| y in covers && Covers(y, x);
        assert Apart(x, p);
        assert y in covers - {q};
      }
      CoverBound(chosen - {p}, covers - {q});
    }
  }

  ghost function InFile(s: set<Place>, file: string): set<Place> {
    set p | p in s && p.file == file
  }

  ghost function Elements(s: seq<Place>): set<Place> {
    set p | p in s
  }

  /** What `collapse_places` promises: a separated selection of the places that leaves none uncovered. */
  lemma CollapseKeeps(places: seq<Place>)
    ensures Sorted(Collapse(places), Leq) && PairwiseApart(Collapse(places))
    ensures forall p :: p in Collapse(places) ==> p in places
    ensures forall p :: p in places ==> Covered(p, Collapse(places))
  {
    PlacesSorted(places);
    GreedyApart(Sort(places, Leq));
    GreedyCovers(Sort(places, Leq));
    GreedyFromInput(Sort(places, Leq));
    forall p
      ensures p in Sort(places, Leq) <==> p in places
    {
      assert p in multiset(Sort(places, Leq)) <==> p in multiset(places);
    }
  }

  /** A choice among the places that is pairwise a window apart. */
  ghost predicate Selection(chosen: set<Place>, places: seq<Place>) {
    SetApart(chosen) && chosen <= Elements(places)
  }

  lemma SelectionCovered(places: seq<Place>, chosen: set<Place>, p: Place)
    requires Selection(chosen, places) && p in chosen
    ensures Covered(p, Collapse(places))
  {
    hide Collapse, Covered;
    CollapseKeeps(places);
    assert p in places;
  }

  /** In every file, no selection of places pairwise a window apart is larger than the one kept. */
  lemma CollapseIsMaximum(places: seq<Place>, chosen: set<Place>, file: string)
    requires Selection(chosen, places)
    ensures |InFile(chosen, file)| <= |InFile(Elements(Collapse(places)), file)|
  {
    hide Collapse, Covers;
    var kept := InFile(Elements(Collapse(places)), file);
    forall p | p in InFile(chosen, file)
      ensures exists q :: q in kept && Covers(q, p)
    {
      SelectionCovered(places, chosen, p);
      var q :| q in Collapse(places) && Covers(q, p);
      SameFile(q, p);
      assert q in kept;
    }
    CoverBound(InFile(chosen, file), kept);
  }

  lemma SameFile(q: Place, p: Place)
    requires Covers(q, p)
    ensures q.file == p.file
  {}

  /** Nor is any such selection larger over all files together. */
  lemma CollapseIsMaximumOverall(places: seq<Place>, chosen: set<Place>)
    requires Selection(chosen, places)
    ensures |chosen| <= |Collapse(places)|
  {
    hide Collapse, Covers;
    var kept := Elements(Collapse(places));
    forall p | p in chosen
      ensures exists q :: q in kept && Covers(q, p)
    {
      SelectionCovered(places, chosen, p);
      var q :| q in Collapse(places) && Covers(q, p);
    }
    CoverBound(chosen, kept);
    DistinctCount(Collapse(places));
  }

  lemma {:induction false} DistinctCount(s: seq<Place>)
    ensures |Elements(s)| <= |s|
  {
    if s != [] {
      var n := |s| - 1;
      DistinctCount(s[..n]);
      assert s == s[..n] + [s[n]];
      assert Elements(s) == Elements(s[..n]) + {s[n]};
    }
  }

  /** The order in which the hits were found does not matter. */
  lemma CollapseOrderFree(a: seq<Place>, b: seq<Place>)
    requires multiset(a) == multiset(b)
    ensures Collapse(a) == Collapse(b)
  {
    LeqIsTotal();
    SortOrderFree(a, b, Leq);
  }

  lemma {:induction false} GreedyOfApart(s: seq<Place>)
    requires Sorted(s, Leq) && PairwiseApart(s)
    ensures Greedy(s) == s
  {
    hide StringLeq, LastStart;
    if s != [] {
      var n := |s| - 1;
      GreedyOfApart(s[..n]);
      LastStartIsGreatest(s[..n], s[n].file);
      assert s == s[..n] + [s[n]];
      if LastStart(s[..n], s[n].file).Some? {
        var i :| 0 <= i < n && s[..n][i] == Place(s[n].file, LastStart(s[..n], s[n].file).value);
        assert Apart(s[i], s[n]) && Leq(s[i], s[n]);
      }
    }
  }

  /** Collapsing twice is collapsing once. */
  lemma CollapseIdempotent(places: seq<Place>)
    ensures Collapse(Collapse(places)) == Collapse(places)
  {
    CollapseKeeps(places);
    LeqIsTotal();
    SortOfSorted(Collapse(places), Leq);
    GreedyOfApart(Collapse(places));
  }

  // ----- Translation classes

  function Shift(s: seq<Place>, lines: int): seq<Place> {
    seq(|s|, i requires 0 <= i < |s| => Place(s[i].file, s[i].start + lines))
  }

  function LeastStart(s: seq<Place>): (least: int)
    requires s != []
    ensures forall i :: 0 <= i < |s| ==> least <= s[i].start
    ensures exists i :: 0 <= i < |s| && s[i].start == least
  {
    if |s| == 1 then s[0].start
    else
      var n := |s| - 1;
      var front := LeastStart(s[..n]);
      assert exists i :: 0 <= i < |s| && s[i].start == front by {
        var i :| 0 <= i < n && s[..n][i].start == front;
        assert s[i].start == front;
      }
      assert forall i :: 0 <= i < n ==> s[..n][i] == s[i];
      if s[n].start < front then s[n].start else front
  }

  /** The grouping key's second half: the places relative to their least start, sorted. */
  function Signature(places: seq<Place>): seq<Place>
    requires places != []
  {
    Sort(Shift(places, -LeastStart(places)), Leq)
  }

  /** The grouping key's first half, as a set. */
  function Files(places: seq<Place>): set<string> {
    set p | p in places :: p.file
  }

  lemma ShiftSorted(s: seq<Place>, lines: int)
    requires Sorted(s, Leq)
    ensures Sorted(Shift(s, lines), Leq)
  {
    forall i, j | 0 <= i < j < |s|
      ensures Leq(Shift(s, lines)[i], Shift(s, lines)[j])
    {
      assert Leq(s[i], s[j]);
    }
  }

  lemma SignatureIsShift(a: seq<Place>)
    requires a != [] && Sorted(a, Leq)
    ensures Signature(a) == Shift(a, -LeastStart(a))
  {
    hide Leq, Sorted, TotalOrder, Sort, Shift, LeastStart;
    ShiftSorted(a, -LeastStart(a));
    LeqIsTotal();
    SortOfSorted(Shift(a, -LeastStart(a)), Leq);
  }

  lemma EqualShifts(a: seq<Place>, b: seq<Place>, down: int, downB: int)
    requires Shift(a, down) == Shift(b, downB)
    ensures b == Shift(a, down - downB)
  {
    assert |b| == |Shift(b, downB)| == |Shift(a, down)| == |a|;
    forall i | 0 <= i < |b|
      ensures b[i] == Shift(a, down - downB)[i]
    {
      assert Shift(a, down)[i] == Shift(b, downB)[i];
    }
  }

  /** Two candidates share a group exactly when one's places are the other's moved by one number of lines. */
  lemma SameGroupIffTranslates(a: seq<Place>, b: seq<Place>)
    requires a != [] && b != [] && Sorted(a, Leq) && Sorted(b, Leq)
    ensures Files(a) == Files(b) && Signature(a) == Signature(b) <==> exists lines :: b == Shift(a, lines)
  {
    hide Sort, Leq, LeastStart, Files, Shift, Signature;
    SignatureIsShift(a);
    SignatureIsShift(b);
    if Signature(a) == Signature(b) {
      EqualShifts(a, b, -LeastStart(a), -LeastStart(b));
    }
    if lines :| b == Shift(a, lines) {
      ShiftedLeast(a, lines);
      ShiftTwice(a, lines, -LeastStart(b));
      ShiftedFiles(a, lines);
    }
  }

  lemma ShiftTwice(a: seq<Place>, first: int, second: int)
    ensures Shift(Shift(a, first), second) == Shift(a, first + second)
  {
    assert forall i :: 0 <= i < |a| ==> Shift(Shift(a, first), second)[i] == Shift(a, first + second)[i];
  }

  lemma ShiftedLeast(a: seq<Place>, lines: int)
    requires a != []
    ensures LeastStart(Shift(a, lines)) == LeastStart(a) + lines
  {
    var i :| 0 <= i < |a| && a[i].start == LeastStart(a);
    assert Shift(a, lines)[i].start == LeastStart(a) + lines;
    var j :| 0 <= j < |a| && Shift(a, lines)[j].start == LeastStart(Shift(a, lines));
    assert a[j].start + lines == LeastStart(Shift(a, lines));
  }

  lemma ShiftedFiles(a: seq<Place>, lines: int)
    ensures Files(Shift(a, lines)) == Files(a)
  {
    forall f | f in Files(a)
      ensures f in Files(Shift(a, lines))
    {
      var i :| 0 <= i < |a| && a[i].file == f;
      assert Shift(a, lines)[i] in Shift(a, lines);
    }
    forall f | f in Files(Shift(a, lines))
      ensures f in Files(a)
    {
      var i :| 0 <= i < |a| && Shift(a, lines)[i].file == f;
      assert a[i] in a;
    }
  }

  lemma {:induction false} ShiftedGreedy(s: seq<Place>, lines: int)
    ensures Greedy(Shift(s, lines)) == Shift(Greedy(s), lines)
  {
    hide LastStart;
    if s != [] {
      var n := |s| - 1;
      ShiftedGreedy(s[..n], lines);
      assert Shift(s, lines)[..n] == Shift(s[..n], lines);
      ShiftedLast(Greedy(s[..n]), s[n].file, lines);
      assert Shift(Greedy(s[..n]) + [s[n]], lines) == Shift(Greedy(s[..n]), lines) + [Shift(s, lines)[n]];
    }
  }

  lemma {:induction false} ShiftedLast(kept: seq<Place>, file: string, lines: int)
    ensures LastStart(kept, file).None? ==> LastStart(Shift(kept, lines), file).None?
    ensures LastStart(kept, file).Some? ==> LastStart(Shift(kept, lines), file) == Some(LastStart(kept, file).value + lines)
  {
    if kept != [] {
      var n := |kept| - 1;
      ShiftedLast(kept[..n], file, lines);
      assert Shift(kept, lines)[..n] == Shift(kept[..n], lines);
    }
  }

  lemma {:induction false} ShiftedMultiset(a: seq<Place>, b: seq<Place>, lines: int)
    requires multiset(a) == multiset(b)
    ensures multiset(Shift(a, lines)) == multiset(Shift(b, lines))
  {
    forall p: Place
      ensures multiset(Shift(a, lines))[p] == multiset(Shift(b, lines))[p]
    {
      ShiftedCount(a, lines, p);
      ShiftedCount(b, lines, p);
    }
  }

  lemma {:induction false} ShiftedCount(a: seq<Place>, lines: int, p: Place)
    ensures multiset(Shift(a, lines))[p] == multiset(a)[Place(p.file, p.start - lines)]
  {
    if a != [] {
      var n := |a| - 1;
      ShiftedCount(a[..n], lines, p);
      assert a == a[..n] + [a[n]];
      assert Shift(a, lines) == Shift(a[..n], lines) + [Place(a[n].file, a[n].start + lines)];
    }
  }

  /**
   * A block copied verbatim is one group: the windows of the block are found at the same places moved line by line,
   * and collapsing commutes with moving, so however long the block is its windows share one key.
   */
  lemma CopiedBlockIsOneGroup(hits: seq<Place>, lines: int)
    requires hits != []
    ensures Collapse(Shift(hits, lines)) == Shift(Collapse(hits), lines)
    ensures Collapse(hits) != [] && Collapse(Shift(hits, lines)) != []
    ensures Signature(Collapse(Shift(hits, lines))) == Signature(Collapse(hits))
    ensures Files(Collapse(Shift(hits, lines))) == Files(Collapse(hits))
  {
    PlacesSorted(hits);
    PlacesSorted(Shift(hits, lines));
    ShiftSorted(Sort(hits, Leq), lines);
    ShiftedMultiset(Sort(hits, Leq), hits, lines);
    SortedUnique(Sort(Shift(hits, lines), Leq), Shift(Sort(hits, Leq), lines), Leq);
    ShiftedGreedy(Sort(hits, Leq), lines);
    CollapseKeeps(hits);
    CollapseKeeps(Shift(hits, lines));
    assert hits[0] in hits && Shift(hits, lines)[0] in Shift(hits, lines);
    SameGroupIffTranslates(Collapse(hits), Collapse(Shift(hits, lines)));
  }
}
