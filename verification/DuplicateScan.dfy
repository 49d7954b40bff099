/**
 * The duplicate-code gate's scan: windows are collected by content, filtered, grouped by translation and reported once
 * a group. Contents stand for their digests; which windows are worth looking at is a parameter.
 */
module DuplicateScan {
  import opened Options
  import opened Sequences
  import opened Sorting
  import opened DuplicatePlaces

  /** Lines that make two hits in one file far enough apart to report. */
  const GAP: int := 20

  type Window = seq<string>

  /** A file: its name and its normalised lines. */
  datatype Source = Source(name: string, lines: seq<string>)

  // ----- Where a window stands

  function Windows(file: Source): nat {
    if |file.lines| < WINDOW then 0 else |file.lines| - WINDOW + 1
  }

  function WindowAt(file: Source, start: nat): Window
    requires start < Windows(file)
  {
    file.lines[start..start + WINDOW]
  }

  /** The places of `w` among the first `n` starts of a file; lines are numbered from 1. */
  function FilePlaces(file: Source, n: nat, w: Window): seq<Place>
    requires n <= Windows(file)
  {
    if n == 0 then []
    else FilePlaces(file, n - 1, w) + if WindowAt(file, n - 1) == w then [Place(file.name, n)] else []
  }

  function Places(project: seq<Source>, w: Window): seq<Place> {
    if project == [] then []
    else
      var n := |project| - 1;
      Places(project[..n], w) + FilePlaces(project[n], Windows(project[n]), w)
  }

  ghost predicate Stands(project: seq<Source>, w: Window, p: Place) {
    exists i :: 0 <= i < |project| && StandsIn(project[i], w, p)
  }

  predicate StandsIn(file: Source, w: Window, p: Place) {
    p.file == file.name && 0 < p.start <= Windows(file) && WindowAt(file, p.start - 1) == w
  }

  lemma {:induction false} FilePlacesMeaning(file: Source, n: nat, w: Window, p: Place)
    requires n <= Windows(file)
    ensures p in FilePlaces(file, n, w) <==> StandsIn(file, w, p) && p.start <= n
  {
    hide WindowAt;
    if n > 0 {
      FilePlacesMeaning(file, n - 1, w, p);
      var last := Place(file.name, n);
      assert StandsIn(file, w, last) <==> WindowAt(file, n - 1) == w;
      assert p.file == file.name && p.start == n ==> p == last;
      hide StandsIn;
    }
  }

  /** Places of a window are exactly where it stands. */
  lemma {:induction false} PlacesMeaning(project: seq<Source>, w: Window, p: Place)
    ensures p in Places(project, w) <==> Stands(project, w, p)
  {
    hide StandsIn;
    if project != [] {
      var n := |project| - 1;
      PlacesMeaning(project[..n], w, p);
      FilePlacesMeaning(project[n], Windows(project[n]), w, p);
      StandsInBound(project[n], w, p);
      if Stands(project, w, p) && !StandsIn(project[n], w, p) {
        var i :| 0 <= i < |project| && StandsIn(project[i], w, p);
        assert StandsIn(project[..n][i], w, p);
      }
      if Stands(project[..n], w, p) {
        var i :| 0 <= i < n && StandsIn(project[..n][i], w, p);
        assert StandsIn(project[i], w, p);
      }
    }
  }

  lemma StandsInBound(file: Source, w: Window, p: Place)
    ensures StandsIn(file, w, p) ==> p.start <= Windows(file)
  {}

  /** Files are listed once. */
  predicate DistinctNames(project: seq<Source>) {
    forall i, j :: 0 <= i < j < |project| ==> project[i].name != project[j].name
  }

  lemma OneWindowPerPlace(project: seq<Source>, v: Window, w: Window, p: Place)
    requires DistinctNames(project) && p in Places(project, v) && p in Places(project, w)
    ensures v == w
  {
    PlacesMeaning(project, v, p);
    PlacesMeaning(project, w, p);
  }

  // ----- Collecting

  /** The hits of the first `i` files and of the first `k` starts of the next. */
  function PlacesTo(project: seq<Source>, i: nat, k: nat, w: Window): seq<Place>
    requires i <= |project| && if i < |project| then k <= Windows(project[i]) else k == 0
  {
    Places(project[..i], w) + if i < |project| then FilePlaces(project[i], k, w) else []
  }

  ghost predicate Collected(project: seq<Source>, survives: Window -> bool, m: map<Window, seq<Place>>, i: nat, k: nat)
    requires i <= |project| && if i < |project| then k <= Windows(project[i]) else k == 0
  {
    (forall w :: Get(m, w) == if survives(w) then PlacesTo(project, i, k, w) else [])
    && forall w :: w in m ==> m[w] != []
  }

  /** The surviving windows with all their places. */
  ghost predicate Occurrences(project: seq<Source>, survives: Window -> bool, m: map<Window, seq<Place>>) {
    (forall w :: Get(m, w) == if survives(w) then Places(project, w) else [])
    && forall w :: w in m ==> m[w] != []
  }

  lemma PlacesToStep(project: seq<Source>, i: nat, k: nat, v: Window)
    requires i < |project| && k < Windows(project[i])
    ensures PlacesTo(project, i, k + 1, v) ==
            if v == WindowAt(project[i], k) then PlacesTo(project, i, k, v) + [Place(project[i].name, k + 1)]
            else PlacesTo(project, i, k, v)
  {
    hide Places, WindowAt;
    var p := Place(project[i].name, k + 1);
    var before, found := Places(project[..i], v), FilePlaces(project[i], k, v);
    assert before + (found + [p]) == (before + found) + [p];
    assert found + [] == found;
  }

  lemma CollectStep(project: seq<Source>, survives: Window -> bool, m: map<Window, seq<Place>>, i: nat, k: nat)
    requires i < |project| && k < Windows(project[i]) && Collected(project, survives, m, i, k)
    ensures
      var w := WindowAt(project[i], k);
      Collected(project, survives, if survives(w) then m[w := Get(m, w) + [Place(project[i].name, k + 1)]] else m, i, k + 1)
  {
    hide PlacesTo, WindowAt;
    var w := WindowAt(project[i], k);
    var p := Place(project[i].name, k + 1);
    var after := if survives(w) then m[w := Get(m, w) + [p]] else m;
    forall v: Window
      ensures Get(after, v) == if survives(v) then PlacesTo(project, i, k + 1, v) else []
    {
      assert Get(m, v) == if survives(v) then PlacesTo(project, i, k, v) else [];
      PlacesToStep(project, i, k, v);
    }
  }

  lemma CollectedNext(project: seq<Source>, survives: Window -> bool, m: map<Window, seq<Place>>, i: nat)
    requires i < |project| && Collected(project, survives, m, i, Windows(project[i]))
    ensures Collected(project, survives, m, i + 1, 0)
  {
    hide PlacesTo;
    forall w: Window
      ensures PlacesTo(project, i + 1, 0, w) == PlacesTo(project, i, Windows(project[i]), w)
    {
      NextFile(project, i, w);
    }
  }

  lemma NextFile(project: seq<Source>, i: nat, w: Window)
    requires i < |project|
    ensures PlacesTo(project, i + 1, 0, w) == PlacesTo(project, i, Windows(project[i]), w)
  {
    hide FilePlaces;
    assert project[..i + 1][..i] == project[..i];
    assert Places(project[..i + 1], w) + [] == Places(project[..i + 1], w);
    NoneYet(project, i + 1, w);
  }

  lemma NoneYet(project: seq<Source>, i: nat, w: Window)
    requires i <= |project|
    ensures PlacesTo(project, i, 0, w) == Places(project[..i], w)
  {
    assert Places(project[..i], w) + [] == Places(project[..i], w);
  }

  lemma CollectedEnds(project: seq<Source>, survives: Window -> bool, m: map<Window, seq<Place>>)
    ensures Collected(project, survives, map[], 0, 0)
    ensures Collected(project, survives, m, |project|, 0) ==> Occurrences(project, survives, m)
  {
    assert project[..|project|] == project && project[..0] == [];
    forall w: Window
      ensures PlacesTo(project, 0, 0, w) == [] && PlacesTo(project, |project|, 0, w) == Places(project, w)
    {
      assert Places(project, w) + [] == Places(project, w);
    }
  }

  method CollectOccurrences(project: seq<Source>, survives: Window -> bool) returns (occurrences: map<Window, seq<Place>>)
    ensures Occurrences(project, survives, occurrences)
  {
    hide Collected, Occurrences;
    occurrences := map[];
    CollectedEnds(project, survives, occurrences);
    for i := 0 to |project|
      invariant Collected(project, survives, occurrences, i, 0)
    {
      var file := project[i];
      for start := 0 to Windows(file)
        invariant Collected(project, survives, occurrences, i, start)
      {
        CollectStep(project, survives, occurrences, i, start);
        var window := WindowAt(file, start);
        if survives(window) {
          occurrences := occurrences[window := Get(occurrences, window) + [Place(file.name, start + 1)]];
        }
      }
      CollectedNext(project, survives, occurrences, i);
    }
    CollectedEnds(project, survives, occurrences);
  }

  // ----- Candidates

  /** Whether collapsed places are worth reporting: two files, or two places in one file far apart. */
  predicate Keeps(places: seq<Place>) {
    |Files(places)| >= 2
    || exists i :: 0 <= i < |places| - 1 && places[i + 1].start - places[i].start >= GAP
  }

  function Candidates(m: map<Window, seq<Place>>): map<Window, seq<Place>> {
    map w | w in m && Keeps(Collapse(m[w])) :: Collapse(m[w])
  }

  method SelectCandidates(occurrences: map<Window, seq<Place>>) returns (candidates: map<Window, seq<Place>>)
    ensures candidates == Candidates(occurrences)
  {
    hide Keeps, Collapse;
    candidates := map[];
    var todo := occurrences.Keys;
    while todo != {}
      invariant todo <= occurrences.Keys
      invariant candidates == map w | w in occurrences && w !in todo && Keeps(Collapse(occurrences[w])) :: Collapse(occurrences[w])
    {
      var digest :| digest in todo;
      var collapsed := CollapsePlaces(occurrences[digest]);
      if Keeps(collapsed) {
        candidates := candidates[digest := collapsed];
      }
      todo := todo - {digest};
    }
  }

  /** What the scan knows of its candidates: sorted places, no place shared. */
  ghost predicate Separate(c: map<Window, seq<Place>>) {
    (forall w :: w in c ==> c[w] != [] && Sorted(c[w], Leq))
    && forall v, w :: ShareNothing(c, v, w)
  }

  /** Different windows have no place in common. */
  predicate ShareNothing(c: map<Window, seq<Place>>, v: Window, w: Window) {
    v in c && w in c && v != w ==> forall p :: p in c[v] ==> p !in c[w]
  }

  lemma CandidatesSeparate(project: seq<Source>, survives: Window -> bool, m: map<Window, seq<Place>>)
    requires DistinctNames(project) && Occurrences(project, survives, m)
    ensures Separate(Candidates(m))
  {
    hide Sorted, Collapse, Places, Leq;
    var c := Candidates(m);
    forall w | w in c
      ensures c[w] != [] && Sorted(c[w], Leq) && forall p :: p in c[w] ==> p in Places(project, w)
    {
      assert Get(m, w) != [];
      CollapseKeeps(m[w]);
      assert Covered(m[w][0], c[w]);
    }
    forall v, w
      ensures ShareNothing(c, v, w)
    {
      forall p | v in c && w in c && p in c[v] && p in c[w]
        ensures v == w
      {
        OneWindowPerPlace(project, v, w, p);
      }
    }
  }

  // ----- Groups

  datatype Key = Key(files: set<string>, signature: seq<Place>)

  function KeyOf(places: seq<Place>): Key
    requires places != []
  {
    Key(Files(places), Signature(places))
  }

  /** The groups of the candidates in `done`. */
  ghost predicate Grouped(c: map<Window, seq<Place>>, done: set<Window>, groups: map<Key, seq<Window>>)
    requires Separate(c)
  {
    (forall key, w :: w in Get(groups, key) <==> w in done && w in c && KeyOf(c[w]) == key)
    && forall key :: key in groups ==> groups[key] != []
  }

  lemma NoneEmpty(c: map<Window, seq<Place>>, w: Window)
    requires Separate(c) && w in c
    ensures c[w] != []
  {}

  lemma GroupStep(c: map<Window, seq<Place>>, done: set<Window>, groups: map<Key, seq<Window>>, digest: Window)
    requires Separate(c) && Grouped(c, done, groups) && digest in c
    ensures
      var key := KeyOf(c[digest]);
      Grouped(c, done + {digest}, groups[key := Get(groups, key) + [digest]])
  {
    hide KeyOf, Sorted, Leq;
    var key := KeyOf(c[digest]);
    var after := groups[key := Get(groups, key) + [digest]];
    forall k, w
      ensures w in Get(after, k) <==> w in done + {digest} && w in c && KeyOf(c[w]) == k
    {
      assert w in Get(groups, k) <==> w in done && w in c && KeyOf(c[w]) == k;
    }
  }

  method GroupCandidates(c: map<Window, seq<Place>>) returns (groups: map<Key, seq<Window>>)
    requires Separate(c)
    ensures Grouped(c, c.Keys, groups)
  {
    hide KeyOf, Separate;
    groups := map[];
    var todo := c.Keys;
    while todo != {}
      invariant todo <= c.Keys
      invariant Grouped(c, c.Keys - todo, groups)
    {
      var digest :| digest in todo;
      NoneEmpty(c, digest);
      var key := KeyOf(c[digest]);
      GroupStep(c, c.Keys - todo, groups, digest);
      assert c.Keys - (todo - {digest}) == c.Keys - todo + {digest};
      groups := groups[key := Get(groups, key) + [digest]];
      todo := todo - {digest};
    }
    assert c.Keys - todo == c.Keys;
  }

  // ----- Clusters

  datatype Cluster = Cluster(files: set<string>, occurrences: nat, places: seq<Place>)

  /** No candidate of the group starts earlier. */
  ghost predicate Represents(c: map<Window, seq<Place>>, w: Window)
    requires Separate(c) && w in c
  {
    forall v :: v in c && KeyOf(c[v]) == KeyOf(c[w]) ==> LeastStart(c[w]) <= LeastStart(c[v])
  }

  ghost function Clusters(c: map<Window, seq<Place>>): map<Window, Cluster>
    requires Separate(c)
  {
    map w | w in c && Represents(c, w) :: Cluster(Files(c[w]), |c[w]|, c[w])
  }

  lemma SameKey(a: seq<Place>, b: seq<Place>)
    requires a != [] && b != [] && Sorted(a, Leq) && Sorted(b, Leq) && KeyOf(a) == KeyOf(b)
    ensures b == Shift(a, LeastStart(b) - LeastStart(a)) && |a| == |b|
  {
    hide Leq, Sorted, Sort, LeastStart, Signature, Files;
    SameGroupIffTranslates(a, b);
    var lines :| b == Shift(a, lines);
    ShiftedLeast(a, lines);
  }

  /** A group has one earliest candidate, so the choice does not depend on the order of the group. */
  lemma RepresentativeIsUnique(c: map<Window, seq<Place>>, v: Window, w: Window)
    requires Separate(c) && v in c && w in c && KeyOf(c[v]) == KeyOf(c[w])
    requires LeastStart(c[v]) == LeastStart(c[w])
    ensures v == w
  {
    hide LeastStart, KeyOf, Leq, Sorted;
    SameKey(c[v], c[w]);
    assert c[w][0] == c[v][0];
    assert c[v][0] in c[v] && c[w][0] in c[w];
    assert ShareNothing(c, v, w);
  }

  /** The member with the least start and the largest number of places, as `min` and `max` over the group. */
  method ChooseMember(c: map<Window, seq<Place>>, members: seq<Window>) returns (digest: Window, occurrences: nat)
    requires Separate(c) && members != [] && forall v :: v in members ==> v in c
    ensures digest in members && forall v :: v in members ==> LeastStart(c[digest]) <= LeastStart(c[v])
    ensures (forall v :: v in members ==> |c[v]| <= occurrences) && exists v :: v in members && |c[v]| == occurrences
  {
    hide LeastStart;
    digest, occurrences := members[0], |c[members[0]]|;
    for i := 1 to |members|
      invariant digest in members && forall j :: 0 <= j < i ==> LeastStart(c[digest]) <= LeastStart(c[members[j]])
      invariant forall j :: 0 <= j < i ==> |c[members[j]]| <= occurrences
      invariant exists v :: v in members && |c[v]| == occurrences
    {
      var member := members[i];
      assert member in members;
      if LeastStart(c[member]) < LeastStart(c[digest]) {
        digest := member;
      }
      if |c[member]| > occurrences {
        occurrences := |c[member]|;
      }
    }
  }

  /** The clusters of the groups whose keys are in `done`. */
  ghost function ClustersOf(c: map<Window, seq<Place>>, done: set<Key>): map<Window, Cluster>
    requires Separate(c)
  {
    map w | w in c && KeyOf(c[w]) in done && Represents(c, w) :: Cluster(Files(c[w]), |c[w]|, c[w])
  }

  lemma ClusterStep(c: map<Window, seq<Place>>, done: set<Key>, key: Key, members: seq<Window>, digest: Window, occurrences: nat)
    requires Separate(c) && forall w :: w in members <==> w in c && KeyOf(c[w]) == key
    requires digest in members && forall v :: v in members ==> LeastStart(c[digest]) <= LeastStart(c[v])
    requires exists v :: v in members && |c[v]| == occurrences
    ensures ClustersOf(c, done + {key}) == ClustersOf(c, done)[digest := Cluster(Files(c[digest]), occurrences, c[digest])]
  {
    hide LeastStart, KeyOf, Files, Leq, Sorted;
    var v :| v in members && |c[v]| == occurrences;
    SameKey(c[v], c[digest]);
    assert Represents(c, digest);
    forall w | w in c && KeyOf(c[w]) == key && Represents(c, w)
      ensures w == digest
    {
      RepresentativeIsUnique(c, w, digest);
    }
  }

  lemma MembersOf(c: map<Window, seq<Place>>, groups: map<Key, seq<Window>>, key: Key)
    requires Separate(c) && Grouped(c, c.Keys, groups) && key in groups
    ensures groups[key] != [] && forall w :: w in groups[key] <==> w in c && KeyOf(c[w]) == key
  {
    hide KeyOf;
    forall w
      ensures w in groups[key] <==> w in c && KeyOf(c[w]) == key
    {
      assert w in Get(groups, key) <==> w in c.Keys && w in c && KeyOf(c[w]) == key;
    }
  }

  method Represent(c: map<Window, seq<Place>>, groups: map<Key, seq<Window>>) returns (clusters: map<Window, Cluster>)
    requires Separate(c) && Grouped(c, c.Keys, groups)
    ensures clusters == Clusters(c)
  {
    hide KeyOf, Represents, Separate, LeastStart, Files;
    clusters := map[];
    var todo := groups.Keys;
    while todo != {}
      invariant todo <= groups.Keys
      invariant clusters == ClustersOf(c, groups.Keys - todo)
    {
      var key :| key in todo;
      var members := groups[key];
      MembersOf(c, groups, key);
      var digest, occurrences := ChooseMember(c, members);
      ClusterStep(c, groups.Keys - todo, key, members, digest, occurrences);
      assert groups.Keys - (todo - {key}) == groups.Keys - todo + {key};
      clusters := clusters[digest := Cluster(Files(c[digest]), occurrences, c[digest])];
      todo := todo - {key};
    }
    AllKeysDone(c, groups);
    assert groups.Keys - todo == groups.Keys;
  }

  lemma AllKeysDone(c: map<Window, seq<Place>>, groups: map<Key, seq<Window>>)
    requires Separate(c) && Grouped(c, c.Keys, groups)
    ensures ClustersOf(c, groups.Keys) == Clusters(c)
  {
    hide KeyOf, Represents, Files;
    forall w | w in c
      ensures KeyOf(c[w]) in groups.Keys
    {
      assert w in Get(groups, KeyOf(c[w]));
    }
  }

  /** The scan over the whole project. */
  method Scan(project: seq<Source>, survives: Window -> bool) returns (clusters: map<Window, Cluster>)
    requires DistinctNames(project)
    ensures exists m :: Occurrences(project, survives, m)
    ensures forall m :: Occurrences(project, survives, m) ==> Separate(Candidates(m)) && clusters == Clusters(Candidates(m))
  {
    hide *;
    var occurrences := CollectOccurrences(project, survives);
    CandidatesSeparate(project, survives, occurrences);
    var candidates := SelectCandidates(occurrences);
    var groups := GroupCandidates(candidates);
    clusters := Represent(candidates, groups);
    forall m | Occurrences(project, survives, m)
      ensures m == occurrences
    {
      OccurrencesUnique(project, survives, m, occurrences);
    }
  }

  /** The project and the filter determine what is collected. */
  lemma OccurrencesUnique(project: seq<Source>, survives: Window -> bool, m: map<Window, seq<Place>>, n: map<Window, seq<Place>>)
    requires Occurrences(project, survives, m) && Occurrences(project, survives, n)
    ensures m == n
  {
    forall w: Window
      ensures (w in m <==> w in n) && (w in m && w in n ==> m[w] == n[w])
    {
      assert Get(m, w) == Get(n, w);
    }
  }

  // ----- What the clusters are

  lemma {:induction false} Earliest(c: map<Window, seq<Place>>, group: set<Window>) returns (first: Window)
    requires Separate(c) && group != {} && group <= c.Keys
    ensures first in group && forall v :: v in group ==> LeastStart(c[first]) <= LeastStart(c[v])
    decreases |group|
  {
    hide LeastStart;
    var v :| v in group;
    first := v;
    if group != {v} {
      var rest := Earliest(c, group - {v});
      first := if LeastStart(c[rest]) < LeastStart(c[v]) then rest else v;
    }
  }

  predicate Translates(a: seq<Place>, b: seq<Place>)
    requires a != [] && b != []
  {
    b == Shift(a, LeastStart(b) - LeastStart(a))
  }

  lemma TranslatesIsKey(a: seq<Place>, b: seq<Place>)
    requires a != [] && b != [] && Sorted(a, Leq) && Sorted(b, Leq)
    ensures Translates(a, b) <==> KeyOf(a) == KeyOf(b)
  {
    hide Leq, Sorted, Sort, LeastStart, Signature, Files, Shift;
    SameGroupIffTranslates(a, b);
    if KeyOf(a) == KeyOf(b) {
      SameKey(a, b);
    }
  }

  /** Every candidate moves to the place of one reported cluster, and of one only. */
  lemma OneClusterEach(c: map<Window, seq<Place>>, w: Window)
    requires Separate(c) && w in c
    ensures exists r :: r in Clusters(c) && Translates(c[r], c[w]) && LeastStart(c[r]) <= LeastStart(c[w])
    ensures forall r, q :: r in Clusters(c) && q in Clusters(c) && Translates(c[r], c[w]) && Translates(c[q], c[w]) ==> r == q
  {
    hide LeastStart, KeyOf, Translates, Sorted, Leq;
    var group := set v | v in c && KeyOf(c[v]) == KeyOf(c[w]);
    assert w in group;
    var first := Earliest(c, group);
    assert first in Clusters(c);
    TranslatesIsKey(c[first], c[w]);
    forall r, q | r in Clusters(c) && q in Clusters(c) && Translates(c[r], c[w]) && Translates(c[q], c[w])
      ensures r == q
    {
      TranslatesIsKey(c[r], c[w]);
      TranslatesIsKey(c[q], c[w]);
      RepresentativeIsUnique(c, r, q);
    }
  }

  // ----- A block that stands at several places

  function Part(block: seq<string>, k: nat): Window
    requires k + WINDOW <= |block|
  {
    block[k..k + WINDOW]
  }

  /** The block starts at `places` and nowhere else: its k-th window stands at exactly those places moved by k lines. */
  ghost predicate StandsAt(project: seq<Source>, block: seq<string>, places: seq<Place>) {
    forall k: nat :: k + WINDOW <= |block| ==> multiset(Places(project, Part(block, k))) == multiset(Shift(places, k))
  }

  ghost predicate SomeSurvives(survives: Window -> bool, block: seq<string>) {
    exists k: nat :: k + WINDOW <= |block| && survives(Part(block, k))
  }

  /** The cluster `r` stands for the window `w`. */
  ghost predicate StandsFor(c: map<Window, seq<Place>>, r: Window, w: Window)
    requires Separate(c)
  {
    r in c && w in c && Represents(c, r) && Translates(c[r], c[w])
  }

  /** The reported clusters that stand for some window of the block. */
  ghost function ClustersOfBlock(c: map<Window, seq<Place>>, block: seq<string>): set<Window>
    requires Separate(c)
  {
    set r | r in Clusters(c) && exists k: nat :: k + WINDOW <= |block| && StandsFor(c, r, Part(block, k))
  }

  lemma KeepsMoved(places: seq<Place>, lines: int)
    ensures Keeps(Shift(places, lines)) <==> Keeps(places)
  {
    ShiftedFiles(places, lines);
    var moved := Shift(places, lines);
    forall i | 0 <= i < |places| - 1
      ensures moved[i + 1].start - moved[i].start == places[i + 1].start - places[i].start
    {}
  }

  /** Collapsing the hits of the k-th window is collapsing those of the first and moving. */
  lemma BlockMoved(places: seq<Place>, k: int)
    requires places != []
    ensures Collapse(Shift(places, k)) == Shift(Collapse(places), k)
    ensures Collapse(places) != [] && Collapse(Shift(places, k)) != []
    ensures KeyOf(Collapse(Shift(places, k))) == KeyOf(Collapse(places))
    ensures Keeps(Collapse(Shift(places, k))) <==> Keeps(Collapse(places))
  {
    hide Collapse, Keeps, Signature, Files, Shift;
    CopiedBlockIsOneGroup(places, k);
    KeepsMoved(Collapse(places), k);
  }

  lemma CandidateOfBlock(project: seq<Source>, survives: Window -> bool, m: map<Window, seq<Place>>,
                         block: seq<string>, places: seq<Place>, k: nat)
    requires Occurrences(project, survives, m) && StandsAt(project, block, places) && places != []
    requires k + WINDOW <= |block|
    ensures
      var w := Part(block, k);
      w in Candidates(m) <==> survives(w) && Keeps(Collapse(places))
    ensures
      var w := Part(block, k);
      w in Candidates(m) ==> Candidates(m)[w] == Collapse(Shift(places, k))
  {
    hide Keeps, Collapse, Places, Part, Shift;
    var w := Part(block, k);
    assert Get(m, w) == if survives(w) then Places(project, w) else [];
    CollapseOrderFree(Places(project, w), Shift(places, k));
    SameLength(Places(project, w), Shift(places, k));
    BlockMoved(places, k);
    ShiftLength(places, k);
  }

  lemma ShiftLength(places: seq<Place>, lines: int)
    ensures |Shift(places, lines)| == |places|
  {}

  /**
   * A block copied any number of times is reported once, however long it is and whatever else is duplicated: its
   * windows are candidates if they survive the filters and the copies are far enough apart, and one cluster stands for
   * all of them.
   */
  lemma BlockIsOneCluster(project: seq<Source>, survives: Window -> bool, m: map<Window, seq<Place>>,
                          block: seq<string>, places: seq<Place>)
    requires DistinctNames(project) && Occurrences(project, survives, m) && Separate(Candidates(m))
    requires StandsAt(project, block, places) && places != []
    ensures forall k: nat :: k + WINDOW <= |block| ==>
              (Part(block, k) in Candidates(m) <==> survives(Part(block, k)) && Keeps(Collapse(places)))
    ensures |ClustersOfBlock(Candidates(m), block)| == if Keeps(Collapse(places)) && SomeSurvives(survives, block) then 1 else 0
  {
    hide Occurrences, StandsAt, Separate, Candidates, Collapse, Part, Keeps, KeyOf, Represents, Translates;
    var c, key := Candidates(m), BlockKey(places);
    forall k: nat | k + WINDOW <= |block|
      ensures Part(block, k) in c <==> survives(Part(block, k)) && Keeps(Collapse(places))
      ensures Part(block, k) in c ==> c[Part(block, k)] != [] && KeyOf(c[Part(block, k)]) == key
    {
      CandidateOfBlock(project, survives, m, block, places, k);
      BlockMoved(places, k);
    }
    if Keeps(Collapse(places)) && SomeSurvives(survives, block) {
      var k: nat :| k + WINDOW <= |block| && survives(Part(block, k));
      OneForKey(c, block, key, k);
    } else {
      assert ClustersOfBlock(c, block) == {};
    }
  }

  ghost function BlockKey(places: seq<Place>): Key
    requires places != []
  {
    BlockMoved(places, 0);
    KeyOf(Collapse(places))
  }

  lemma OneForKey(c: map<Window, seq<Place>>, block: seq<string>, key: Key, k: nat)
    requires Separate(c) && k + WINDOW <= |block| && Part(block, k) in c
    requires forall l: nat :: l + WINDOW <= |block| && Part(block, l) in c ==>
               c[Part(block, l)] != [] && KeyOf(c[Part(block, l)]) == key
    ensures |ClustersOfBlock(c, block)| == 1
  {
    hide KeyOf, Represents, Translates, Sorted, Leq, Part;
    var w := Part(block, k);
    OneClusterEach(c, w);
    var r :| r in Clusters(c) && Translates(c[r], c[w]) && LeastStart(c[r]) <= LeastStart(c[w]);
    assert StandsFor(c, r, w);
    forall q | q in ClustersOfBlock(c, block)
      ensures q == r
    {
      var l: nat :| l + WINDOW <= |block| && StandsFor(c, q, Part(block, l));
      TranslatesIsKey(c[q], c[Part(block, l)]);
      TranslatesIsKey(c[q], c[w]);
    }
    assert ClustersOfBlock(c, block) == {r};
  }

  // ----- Two copies, and nothing else

  /** Places at line `a` of `f` and at line `b` of `g`. */
  function Pair(f: string, a: int, g: string, b: int): seq<Place> {
    [Place(f, a), Place(g, b)]
  }

  predicate FarApart(f: string, a: int, g: string, b: int) {
    f != g || a - b >= GAP || b - a >= GAP
  }

  /** Two copies are reported exactly when they are in two files or far enough apart. */
  lemma PairKept(f: string, a: int, g: string, b: int)
    ensures Keeps(Collapse(Pair(f, a, g, b))) <==> FarApart(f, a, g, b)
  {
    var p, q := Place(f, a), Place(g, b);
    if Leq(p, q) {
      PairInOrder(p, q);
    } else {
      LeqOrder(p, q, p);
      CollapseOrderFree([p, q], [q, p]);
      PairInOrder(q, p);
    }
  }

  lemma SortedStays(places: seq<Place>)
    requires Sorted(places, Leq)
    ensures Collapse(places) == Greedy(places)
  {
    LeqIsTotal();
    SortOfSorted(places, Leq);
  }

  lemma GreedyOne(p: Place)
    ensures Greedy([p]) == [p]
  {
    assert [p][..0] == [];
  }

  lemma LastOfOne(p: Place, file: string)
    ensures LastStart([p], file) == if p.file == file then Some(p.start) else None
  {
    assert [p][..0] == [];
  }

  lemma PairGreedy(p: Place, q: Place)
    ensures Greedy([p, q]) == if p.file == q.file && q.start < p.start + WINDOW then [p] else [p, q]
  {
    GreedyOne(p);
    LastOfOne(p, q.file);
    assert [p, q][..1] == [p];
    hide LastStart;
  }

  lemma PairSorted(p: Place, q: Place)
    requires Leq(p, q)
    ensures Sorted([p, q], Leq) && (p.file == q.file ==> p.start <= q.start)
  {
    hide StringLeq;
  }

  lemma KeepsOfPair(p: Place, q: Place)
    requires p.file == q.file ==> p.start <= q.start
    ensures Keeps(if p.file == q.file && q.start < p.start + WINDOW then [p] else [p, q]) <==>
            FarApart(p.file, p.start, q.file, q.start)
  {
    if p.file != q.file {
      InTwoFiles(p, q);
    } else {
      OneFile([p], p.file);
      OneFile([p, q], p.file);
      assert [p, q][1].start - [p, q][0].start == q.start - p.start;
    }
  }

  lemma PairInOrder(p: Place, q: Place)
    requires Leq(p, q)
    ensures Keeps(Collapse([p, q])) <==> FarApart(p.file, p.start, q.file, q.start)
  {
    hide *;
    PairSorted(p, q);
    SortedStays([p, q]);
    PairGreedy(p, q);
    KeepsOfPair(p, q);
  }

  lemma InTwoFiles(p: Place, q: Place)
    requires p.file != q.file
    ensures Keeps([p, q])
  {
    assert [p, q][0] == p && [p, q][1] == q;
    TwoFiles([p, q], p.file, q.file);
  }

  lemma OneFile(places: seq<Place>, file: string)
    requires forall p :: p in places ==> p.file == file
    ensures |Files(places)| <= 1
  {
    assert Files(places) <= {file};
    Subset(Files(places), file);
  }

  lemma Subset(files: set<string>, file: string)
    requires files <= {file}
    ensures |files| <= 1
  {
    if file in files {
      assert files == {file};
    } else {
      assert files == {};
    }
  }

  lemma TwoFiles(places: seq<Place>, f: string, g: string)
    requires f in Files(places) && g in Files(places) && f != g
    ensures |Files(places)| >= 2
  {
    assert {f, g} <= Files(places);
    assert |Files(places) - {f, g}| + |{f, g}| == |Files(places)|;
  }

  lemma FewPlaces(places: seq<Place>)
    requires |places| <= 1
    ensures !Keeps(Collapse(places))
  {
    if places == [] {
      SortedStays(places);
      OneFile(places, "");
    } else {
      SortedStays(places);
      GreedyOne(places[0]);
      assert places == [places[0]];
      OneFile(places, places[0].file);
    }
  }

  /** No window but the block's own stands at two places. */
  ghost predicate NothingElse(project: seq<Source>, block: seq<string>) {
    forall w: Window :: |Places(project, w)| > 1 ==> IsPart(block, w)
  }

  ghost predicate IsPart(block: seq<string>, w: Window) {
    exists k: nat :: k + WINDOW <= |block| && w == Part(block, k)
  }

  /** If the only duplication of a project is one block copied once, the gate reports one cluster or none. */
  lemma CopyIsOneCluster(project: seq<Source>, survives: Window -> bool, m: map<Window, seq<Place>>,
                         block: seq<string>, f: string, a: int, g: string, b: int)
    requires DistinctNames(project) && Occurrences(project, survives, m) && Separate(Candidates(m))
    requires StandsAt(project, block, Pair(f, a, g, b)) && NothingElse(project, block)
    ensures |Clusters(Candidates(m)).Keys| == if FarApart(f, a, g, b) && SomeSurvives(survives, block) then 1 else 0
  {
    hide StandsAt, SomeSurvives, Candidates, Collapse, Keeps, Translates, Represents;
    var c := Candidates(m);
    BlockIsOneCluster(project, survives, m, block, Pair(f, a, g, b));
    PairKept(f, a, g, b);
    forall r | r in Clusters(c)
      ensures r in ClustersOfBlock(c, block)
    {
      OnlyParts(project, survives, m, block, r);
      var k: nat :| k + WINDOW <= |block| && r == Part(block, k);
      TranslatesSelf(c[r]);
      assert StandsFor(c, r, Part(block, k));
    }
    assert Clusters(c).Keys == ClustersOfBlock(c, block);
  }

  lemma OnlyParts(project: seq<Source>, survives: Window -> bool, m: map<Window, seq<Place>>, block: seq<string>, w: Window)
    requires Occurrences(project, survives, m) && NothingElse(project, block)
    ensures w in Candidates(m) ==> IsPart(block, w)
  {
    hide Keeps, Collapse, Places, IsPart;
    assert Get(m, w) == if survives(w) then Places(project, w) else [];
    if |Places(project, w)| <= 1 {
      FewPlaces(Get(m, w));
    }
  }

  lemma TranslatesSelf(places: seq<Place>)
    requires places != []
    ensures Translates(places, places)
  {
    assert Shift(places, 0) == places;
  }
}
