/**
 * `splitDeclarations` of the API gate: text is cut into declarations at semicolons and braces; a brace group behind
 * anything but a scope header is skipped whole. The two text patterns it consults are parameters.
 */
module Declarations {

  /** `normalizeSpace`, and whether SCOPE_OPEN_PATTERN matches a normalised text. */
  datatype Rules = Rules(normalize: string -> string, opensScope: string -> bool)

  datatype Progress = Progress(declarations: seq<string>, pending: string, parens: nat, brackets: nat)

  const START := Progress([], "", 0, 0)

  function Emitted(r: Rules, declarations: seq<string>, pending: string): seq<string> {
    var candidate := r.normalize(pending);
    if candidate != "" && candidate[0] != '#' then declarations + [candidate] else declarations
  }

  function Emit(r: Rules, st: Progress): Progress {
    st.(declarations := Emitted(r, st.declarations, st.pending), pending := "")
  }

  /** The length of the group at the start of `rest`, when `depth` groups are open; all of it if they never close. */
  function SkipLength(rest: string, depth: nat): (n: nat)
    ensures n <= |rest|
    ensures rest != [] ==> n > 0
  {
    if rest == [] then 0
    else if rest[0] == '{' then 1 + SkipLength(rest[1..], depth + 1)
    else if rest[0] == '}' && depth <= 1 then 1
    else if rest[0] == '}' then 1 + SkipLength(rest[1..], depth - 1)
    else 1 + SkipLength(rest[1..], depth)
  }

  function Fewer(depth: nat): nat {
    if depth == 0 then 0 else depth - 1
  }

  function Push(st: Progress, c: char): Progress {
    var deeper :=
      if c == '(' then st.(parens := st.parens + 1)
      else if c == ')' then st.(parens := Fewer(st.parens))
      else if c == '[' then st.(brackets := st.brackets + 1)
      else if c == ']' then st.(brackets := Fewer(st.brackets))
      else st;
    deeper.(pending := st.pending + [c])
  }

  predicate Splits(st: Progress, c: char) {
    c == ';' && st.parens == 0 && st.brackets == 0
  }

  /** How far one step of the scan goes. */
  function StepLength(r: Rules, rest: string, st: Progress): (n: nat)
    requires rest != []
    ensures 1 <= n <= |rest|
  {
    if rest[0] == '{' && !r.opensScope(r.normalize(st.pending)) then SkipLength(rest, 0)
    else if rest[0] == '}' && |rest| > 1 && rest[1] == ';' then 2
    else 1
  }

  function StepState(r: Rules, st: Progress, c: char): Progress {
    if Splits(st, c) || c == '{' then Emit(r, st)
    else if c == '}' then st.(pending := "")
    else Push(st, c)
  }

  function Scan(r: Rules, rest: string, st: Progress): Progress
    decreases |rest|
  {
    if rest == [] then st
    else Scan(r, rest[StepLength(r, rest, st)..], StepState(r, st, rest[0]))
  }

  function Finish(r: Rules, st: Progress): seq<string> {
    var trailing := r.normalize(st.pending);
    if trailing != "" then st.declarations + [trailing] else st.declarations
  }

  function Split(r: Rules, text: string): seq<string> {
    Finish(r, Scan(r, text, START))
  }

  // ----- The loops

  /** What the scan still gives from `index` on is what it gives for the whole text. */
  predicate OnTrack(r: Rules, text: string, index: nat, declarations: seq<string>, pending: string, parens: nat, brackets: nat) {
    index <= |text| && Scan(r, text[index..], Progress(declarations, pending, parens, brackets)) == Scan(r, text, START)
  }

  lemma TrackStep(r: Rules, text: string, index: nat, declarations: seq<string>, pending: string, parens: nat, brackets: nat)
    requires index < |text| && OnTrack(r, text, index, declarations, pending, parens, brackets)
    ensures
      var c := text[index];
      var next := index + 1;
      var emitted := Emitted(r, declarations, pending);
      if c == ';' && parens == 0 && brackets == 0 then OnTrack(r, text, next, emitted, "", parens, brackets)
      else if c == '{' then
        if r.opensScope(r.normalize(pending)) then OnTrack(r, text, next, emitted, "", parens, brackets)
        else OnTrack(r, text, index + SkipLength(text[index..], 0), emitted, "", parens, brackets)
      else if c == '}' then
        OnTrack(r, text, if next < |text| && text[next] == ';' then next + 1 else next, declarations, "", parens, brackets)
      else if c == '(' then OnTrack(r, text, next, declarations, pending + [c], parens + 1, brackets)
      else if c == ')' then OnTrack(r, text, next, declarations, pending + [c], Fewer(parens), brackets)
      else if c == '[' then OnTrack(r, text, next, declarations, pending + [c], parens, brackets + 1)
      else if c == ']' then OnTrack(r, text, next, declarations, pending + [c], parens, Fewer(brackets))
      else OnTrack(r, text, next, declarations, pending + [c], parens, brackets)
  {
    hide SkipLength, Emitted;
    var rest := text[index..];
    var st := Progress(declarations, pending, parens, brackets);
    var n, after := StepLength(r, rest, st), StepState(r, st, rest[0]);
    assert rest[n..] == text[index + n..];
    assert OnTrack(r, text, index + n, after.declarations, after.pending, after.parens, after.brackets);
  }

  method SkipBraceGroup(text: string, startIndex: nat) returns (end: nat)
    requires startIndex < |text| && text[startIndex] == '{'
    ensures end == startIndex + SkipLength(text[startIndex..], 0)
  {
    var depth, cursor := 0, startIndex;
    while cursor < |text|
      invariant startIndex <= cursor <= |text|
      invariant cursor > startIndex ==> depth > 0
      invariant depth >= 0
      invariant startIndex + SkipLength(text[startIndex..], 0) == cursor + SkipLength(text[cursor..], depth)
    {
      assert text[cursor..][1..] == text[cursor + 1..];
      if text[cursor] == '{' {
        depth := depth + 1;
      } else if text[cursor] == '}' {
        depth := depth - 1;
        if depth == 0 {
          return cursor + 1;
        }
      }
      cursor := cursor + 1;
    }
    end := |text|;
  }

  lemma TrackStart(r: Rules, text: string)
    ensures OnTrack(r, text, 0, [], "", 0, 0)
  {
    assert text[0..] == text;
  }

  lemma TrackEnd(r: Rules, text: string, index: nat, declarations: seq<string>, pending: string, parens: nat, brackets: nat)
    requires index >= |text| && OnTrack(r, text, index, declarations, pending, parens, brackets)
    ensures
      var trailing := r.normalize(pending);
      Split(r, text) == if trailing != "" then declarations + [trailing] else declarations
  {}

  method SplitDeclarations(r: Rules, text: string) returns (declarations: seq<string>)
    ensures declarations == Split(r, text)
  {
    hide OnTrack, SkipLength, Emitted, Split, Scan, Finish;
    declarations := [];
    var pending := "";
    var index: nat, parenthesisDepth: nat, bracketDepth: nat := 0, 0, 0;
    TrackStart(r, text);
    while index < |text|
      invariant 0 <= index <= |text|
      invariant OnTrack(r, text, index, declarations, pending, parenthesisDepth, bracketDepth)
    {
      var character := text[index];
      TrackStep(r, text, index, declarations, pending, parenthesisDepth, bracketDepth);
      if character == ';' && parenthesisDepth == 0 && bracketDepth == 0 {
        declarations, pending := EmitPending(r, declarations, pending);
        index := index + 1;
      } else if character == '{' {
        var isScopeBody := r.opensScope(r.normalize(pending));
        declarations, pending := EmitPending(r, declarations, pending);
        if isScopeBody {
          index := index + 1;
        } else {
          index := SkipBraceGroup(text, index);
        }
      } else if character == '}' {
        pending := "";
        if index + 1 < |text| && text[index + 1] == ';' {
          index := index + 1;
        }
        index := index + 1;
      } else {
        if character == '(' {
          parenthesisDepth := parenthesisDepth + 1;
        } else if character == ')' {
          parenthesisDepth := Fewer(parenthesisDepth);
        } else if character == '[' {
          bracketDepth := bracketDepth + 1;
        } else if character == ']' {
          bracketDepth := Fewer(bracketDepth);
        }
        pending := pending + [character];
        index := index + 1;
      }
    }
    TrackEnd(r, text, index, declarations, pending, parenthesisDepth, bracketDepth);
    var trailing := r.normalize(pending);
    if trailing != "" {
      declarations := declarations + [trailing];
    }
  }

  method EmitPending(r: Rules, declarations: seq<string>, pending: string) returns (emitted: seq<string>, left: string)
    ensures left == ""
    ensures emitted == Emitted(r, declarations, pending)
  {
    var candidate := r.normalize(pending);
    emitted, left := declarations, "";
    if candidate != "" && candidate[0] != '#' {
      emitted := emitted + [candidate];
    }
  }

  // ----- What a skipped group is

  /** How deep the braces of `text` nest at its end, if no closing brace was one too many. */
  predicate Balanced(text: string, depth: nat) {
    if text == [] then depth == 0
    else if text[0] == '{' then Balanced(text[1..], depth + 1)
    else if text[0] == '}' then depth > 0 && Balanced(text[1..], depth - 1)
    else Balanced(text[1..], depth)
  }

  lemma {:induction false} SkipBody(body: string, tail: string, depth: nat)
    requires Balanced(body, depth)
    ensures SkipLength(body + "}" + tail, depth + 1) == |body| + 1
    decreases |body|
  {
    var all := body + "}" + tail;
    if body != [] {
      assert all[1..] == body[1..] + "}" + tail;
      if body[0] == '{' {
        SkipBody(body[1..], tail, depth + 1);
      } else if body[0] == '}' {
        SkipBody(body[1..], tail, depth - 1);
      } else {
        SkipBody(body[1..], tail, depth);
      }
    }
  }

  /** The skip stops one past a closing brace with a balanced body before it, or runs to the end of the text. */
  lemma {:induction false} SkipStops(rest: string, depth: nat)
    requires depth >= 1
    ensures
      var n := SkipLength(rest, depth);
      (n > 0 && rest[n - 1] == '}' && Balanced(rest[..n - 1], depth - 1))
      || (n == |rest| && forall k :: 0 <= k < |rest| && rest[k] == '}' ==> !Balanced(rest[..k], depth - 1))
    decreases |rest|
  {
    var n := SkipLength(rest, depth);
    if rest != [] {
      var next := if rest[0] == '{' then depth + 1 else if rest[0] == '}' then depth - 1 else depth;
      if next > 0 {
        SkipStops(rest[1..], next);
        assert n > 1 ==> rest[1..][..n - 2] == rest[..n - 1][1..];
        forall k | 0 < k < |rest|
          ensures Balanced(rest[..k], depth - 1) == Balanced(rest[1..][..k - 1], next - 1)
        {
          assert rest[..k][1..] == rest[1..][..k - 1];
        }
        assert forall k :: 0 < k < |rest| ==> rest[k] == rest[1..][k - 1];
      }
    }
  }

  /** The length skipped is that of the brace group: up to the brace that matches the first one. */
  lemma SkipIsTheGroup(rest: string, body: string)
    requires rest != [] && rest[0] == '{'
    ensures
      var n := SkipLength(rest, 0);
      (n >= 2 && rest[..n] == "{" + body + "}" && Balanced(body, 0)) <==>
      ("{" + body + "}" <= rest && Balanced(body, 0))
  {
    if "{" + body + "}" <= rest && Balanced(body, 0) {
      var group := "{" + body + "}";
      var tail := rest[|group|..];
      assert rest == group + tail;
      assert rest[1..] == body + "}" + tail;
      SkipBody(body, tail, 0);
      assert SkipLength(rest, 0) == |group|;
    }
  }

  // ----- Scanning in parts

  /** The brace group at the start of `rest` is closed within it. */
  predicate GroupCloses(rest: string) {
    var n := SkipLength(rest, 0);
    n > 1 && rest[n - 1] == '}' && Balanced(rest[1..n - 1], 0)
  }

  predicate SkipsGroup(r: Rules, rest: string, st: Progress)
    requires rest != []
  {
    rest[0] == '{' && !r.opensScope(r.normalize(st.pending))
  }

  /** Scanning `text` ends at its end, not inside a brace group that it leaves open. */
  predicate Complete(r: Rules, text: string, st: Progress)
    decreases |text|
  {
    text != [] ==>
      (SkipsGroup(r, text, st) ==> GroupCloses(text))
      && Complete(r, text[StepLength(r, text, st)..], StepState(r, st, text[0]))
  }

  /** No closing brace at the end of `a` would swallow a semicolon at the start of `b`. */
  predicate Separates(a: string, b: string) {
    a != "" && b != "" && a[|a| - 1] == '}' ==> b[0] != ';'
  }

  lemma StepAppend(r: Rules, a: string, b: string, st: Progress)
    requires a != [] && Separates(a, b)
    requires SkipsGroup(r, a, st) ==> GroupCloses(a)
    ensures StepLength(r, a + b, st) == StepLength(r, a, st)
  {
    hide Balanced, Emit;
    if SkipsGroup(r, a, st) {
      var n := SkipLength(a, 0);
      var body, tail := a[1..n - 1], a[n..] + b;
      assert (a + b)[1..] == body + "}" + tail;
      SkipBody(body, tail, 0);
      assert SkipLength(a + b, 0) == 1 + SkipLength((a + b)[1..], 1);
    }
  }

  lemma {:induction false} ScanAppend(r: Rules, a: string, b: string, st: Progress)
    requires Complete(r, a, st) && Separates(a, b)
    ensures Scan(r, a + b, st) == Scan(r, b, Scan(r, a, st))
    decreases |a|
  {
    hide StepLength, StepState, GroupCloses, SkipsGroup;
    if a == [] {
      assert a + b == b;
    } else {
      var n := StepLength(r, a, st);
      StepAppend(r, a, b, st);
      assert (a + b)[n..] == a[n..] + b;
      ScanAppend(r, a[n..], b, StepState(r, st, a[0]));
    }
  }

  lemma ScanGroup(r: Rules, body: string, tail: string, st: Progress)
    requires Balanced(body, 0) && !r.opensScope(r.normalize(st.pending))
    ensures Scan(r, "{" + body + "}" + tail, st) == Scan(r, tail, Emit(r, st))
  {
    var rest := "{" + body + "}" + tail;
    assert rest[1..] == body + "}" + tail;
    SkipBody(body, tail, 0);
    assert SkipLength(rest, 0) == 1 + SkipLength(rest[1..], 1);
    hide SkipLength, Balanced, Emit;
    assert StepLength(r, rest, st) == |body| + 2;
    assert rest[|body| + 2..] == tail;
  }

  /** The body of a function or initialiser does not reach the result: any balanced body will do. */
  lemma BodyIrrelevant(r: Rules, before: string, body: string, other: string, after: string)
    requires Complete(r, before, START)
    requires !r.opensScope(r.normalize(Scan(r, before, START).pending))
    requires Balanced(body, 0) && Balanced(other, 0)
    ensures Split(r, before + ("{" + body + "}" + after)) == Split(r, before + ("{" + other + "}" + after))
  {
    var st := Scan(r, before, START);
    ScanAppend(r, before, "{" + body + "}" + after, START);
    ScanAppend(r, before, "{" + other + "}" + after, START);
    ScanGroup(r, body, after, st);
    ScanGroup(r, other, after, st);
  }

  // ----- What the scan loses

  /** What the scan adds to the declarations when it starts with `st`'s pending text and depths. */
  function Later(r: Rules, rest: string, st: Progress): seq<string> {
    Finish(r, Scan(r, rest, st.(declarations := [])))
  }

  lemma StepAdds(r: Rules, rest: string, st: Progress)
    requires rest != []
    ensures
      var none := st.(declarations := []);
      var next, alone := StepState(r, st, rest[0]), StepState(r, none, rest[0]);
      StepLength(r, rest, none) == StepLength(r, rest, st)
      && next.declarations == st.declarations + alone.declarations && next.(declarations := []) == alone.(declarations := [])
  {
    hide SkipLength;
    assert st.declarations + [] == st.declarations;
  }

  lemma Regroup(a: seq<string>, b: seq<string>, c: seq<string>)
    ensures a + (b + c) == (a + b) + c
  {}

  lemma LaterIs(r: Rules, rest: string, st: Progress)
    ensures Later(r, rest, st) == Finish(r, Scan(r, rest, st.(declarations := [])))
  {}

  /** The scan only ever adds declarations behind those it has. */
  lemma {:induction false} ScanAdds(r: Rules, rest: string, st: Progress)
    ensures Finish(r, Scan(r, rest, st)) == st.declarations + Later(r, rest, st)
    decreases |rest|
  {
    if rest == [] {
      assert st.declarations + [] == st.declarations;
    } else {
      var tail := rest[StepLength(r, rest, st)..];
      var none := st.(declarations := []);
      var next, alone := StepState(r, st, rest[0]), StepState(r, none, rest[0]);
      assert Scan(r, rest, st) == Scan(r, tail, next);
      StepAdds(r, rest, st);
      assert Scan(r, rest, none) == Scan(r, tail, alone);
      LaterIs(r, rest, st);
      hide *;
      ScanAdds(r, tail, next);
      ScanAdds(r, tail, alone);
      SameLater(r, tail, next, alone);
      Regroup(st.declarations, alone.declarations, Later(r, tail, alone));
    }
  }

  /** At a closing brace the pending text is forgotten. */
  lemma CloseForgets(r: Rules, after: string, st: Progress)
    ensures Scan(r, "}" + after, st) == Scan(r, "}" + after, st.(pending := ""))
  {
    var rest := "}" + after;
    assert StepLength(r, rest, st) == StepLength(r, rest, st.(pending := ""));
  }

  lemma CloseAdds(r: Rules, before: string, after: string)
    requires Complete(r, before, START)
    ensures
      var st := Scan(r, before, START);
      Split(r, before + ("}" + after)) == st.declarations + Later(r, "}" + after, st.(pending := ""))
  {
    var st := Scan(r, before, START);
    ScanAppend(r, before, "}" + after, START);
    CloseForgets(r, after, st);
    ScanAdds(r, "}" + after, st.(pending := ""));
  }

  /**
   * Of what stands in front of a closing brace only the finished declarations and the depth reach the result: two texts
   * that leave the same depth give the same result exactly when they have given the same declarations.
   */
  lemma PendingForgotten(r: Rules, one: string, other: string, after: string)
    requires Complete(r, one, START) && Complete(r, other, START)
    requires Scan(r, one, START).parens == Scan(r, other, START).parens
    requires Scan(r, one, START).brackets == Scan(r, other, START).brackets
    ensures Split(r, one + ("}" + after)) == Split(r, other + ("}" + after)) <==>
            Scan(r, one, START).declarations == Scan(r, other, START).declarations
  {
    hide Complete, Scan, Split, Later;
    var x, y := Scan(r, one, START), Scan(r, other, START);
    CloseAdds(r, one, after);
    CloseAdds(r, other, after);
    var later := Later(r, "}" + after, x.(pending := ""));
    assert later == Later(r, "}" + after, y.(pending := "")) by { SameLater(r, "}" + after, x.(pending := ""), y.(pending := "")); }
    SameFront(x.declarations, y.declarations, later);
  }

  lemma SameLater(r: Rules, rest: string, x: Progress, y: Progress)
    requires x.(declarations := []) == y.(declarations := [])
    ensures Later(r, rest, x) == Later(r, rest, y)
  {}

  lemma SameFront(a: seq<string>, b: seq<string>, later: seq<string>)
    ensures a + later == b + later <==> a == b
  {
    if a + later == b + later {
      assert |a| == |b|;
      assert (a + later)[..|a|] == a && (b + later)[..|b|] == b;
    }
  }

  /** Text in a scope that finishes no declaration: no braces, and semicolons only inside parentheses or brackets. */
  predicate Unfinished(text: string, st: Progress) {
    text == [] || (text[0] !in {'{', '}'} && !Splits(st, text[0]) && Unfinished(text[1..], Push(st, text[0])))
  }

  function PushAll(st: Progress, text: string): Progress
    decreases |text|
  {
    if text == [] then st else PushAll(Push(st, text[0]), text[1..])
  }

  lemma {:induction false} ScanUnfinished(r: Rules, text: string, after: string, st: Progress)
    requires Unfinished(text, st)
    ensures Scan(r, text + after, st) == Scan(r, after, PushAll(st, text))
    ensures PushAll(st, text).declarations == st.declarations
    decreases |text|
  {
    if text == [] {
      assert text + after == after;
    } else {
      assert (text + after)[1..] == text[1..] + after;
      ScanUnfinished(r, text[1..], after, Push(st, text[0]));
    }
  }

  /** Whatever a scope body holds behind its last finished declaration is discarded at the closing brace. */
  lemma ScopeTailInvisible(r: Rules, before: string, tail: string, other: string, after: string)
    requires Complete(r, before, START) && Separates(before, tail) && Separates(before, other)
    requires Unfinished(tail, Scan(r, before, START)) && Unfinished(other, Scan(r, before, START))
    requires
      var x, y := PushAll(Scan(r, before, START), tail), PushAll(Scan(r, before, START), other);
      x.parens == y.parens && x.brackets == y.brackets
    ensures Split(r, before + (tail + ("}" + after))) == Split(r, before + (other + ("}" + after)))
  {
    hide Complete, Scan, Unfinished, PushAll;
    var st := Scan(r, before, START);
    var x, y := PushAll(st, tail), PushAll(st, other);
    TailFits(before, tail, after);
    TailFits(before, other, after);
    ScanAppend(r, before, tail + ("}" + after), START);
    ScanAppend(r, before, other + ("}" + after), START);
    ScanUnfinished(r, tail, "}" + after, st);
    ScanUnfinished(r, other, "}" + after, st);
    CloseForgets(r, after, x);
    CloseForgets(r, after, y);
    assert x.(pending := "") == y.(pending := "");
  }

  lemma TailFits(before: string, tail: string, after: string)
    requires Separates(before, tail)
    ensures Separates(before, tail + ("}" + after))
  {
    if tail != "" { assert (tail + ("}" + after))[0] == tail[0]; }
  }

  // ----- Exactly when something is lost

  /** The step that loses nothing: a closing brace finishes what is pending instead of dropping it. */
  function StateKeeping(r: Rules, st: Progress, c: char): Progress {
    if c == '}' then Emit(r, st) else StepState(r, st, c)
  }

  function ScanKeeping(r: Rules, rest: string, st: Progress): Progress
    decreases |rest|
  {
    if rest == [] then st
    else ScanKeeping(r, rest[StepLength(r, rest, st)..], StateKeeping(r, st, rest[0]))
  }

  /** Wherever the scan meets a closing brace, at whatever depth, what is pending makes no declaration. */
  predicate NothingPending(r: Rules, rest: string, st: Progress)
    decreases |rest|
  {
    rest != [] ==>
      (rest[0] == '}' ==> Emitted(r, [], st.pending) == [])
      && NothingPending(r, rest[StepLength(r, rest, st)..], StepState(r, st, rest[0]))
  }

  /** Apart from the declarations so far the two scans are at the same point. */
  predicate Beside(st: Progress, kept: Progress) {
    st.(declarations := []) == kept.(declarations := []) && |st.declarations| <= |kept.declarations|
  }

  /** One step: the keeping scan gains what is pending at a closing brace, and nothing otherwise. */
  lemma StepBeside(r: Rules, rest: string, st: Progress, kept: Progress)
    requires rest != [] && Beside(st, kept)
    ensures StepLength(r, rest, kept) == StepLength(r, rest, st)
    ensures
      var next, other := StepState(r, st, rest[0]), StateKeeping(r, kept, rest[0]);
      var gained := if rest[0] == '}' then |Emitted(r, [], st.pending)| else 0;
      Beside(next, other) && |other.declarations| - |next.declarations| == |kept.declarations| - |st.declarations| + gained
      && (st == kept && gained == 0 ==> next == other)
  {
    hide SkipLength;
  }

  /** So the two results differ in length by what was pending at closing braces, and are equal if that is nothing. */
  lemma {:induction false} ScanBeside(r: Rules, rest: string, st: Progress, kept: Progress)
    requires Beside(st, kept)
    ensures
      var end, other := Scan(r, rest, st), ScanKeeping(r, rest, kept);
      Beside(end, other)
      && |other.declarations| - |end.declarations| >= |kept.declarations| - |st.declarations|
      && (!NothingPending(r, rest, st) ==>
            |other.declarations| - |end.declarations| > |kept.declarations| - |st.declarations|)
      && (NothingPending(r, rest, st) && st == kept ==> end == other)
    decreases |rest|
  {
    hide StepLength, StepState, StateKeeping, Emitted, Beside;
    if rest != [] {
      StepBeside(r, rest, st, kept);
      ScanBeside(r, rest[StepLength(r, rest, st)..], StepState(r, st, rest[0]), StateKeeping(r, kept, rest[0]));
    }
  }

  /**
   * Skipped groups apart `splitDeclarations` loses nothing, that is, gives what a scan that finishes declarations at
   * closing braces gives, exactly when nothing that makes a declaration is pending at any closing brace it meets, at
   * whatever depth.
   */
  lemma LosesNothingIff(r: Rules, text: string)
    ensures Split(r, text) == Finish(r, ScanKeeping(r, text, START)) <==> NothingPending(r, text, START)
  {
    ScanBeside(r, text, START, START);
    var end, other := Scan(r, text, START), ScanKeeping(r, text, START);
    FinishBeside(r, end, other);
  }

  lemma FinishBeside(r: Rules, end: Progress, other: Progress)
    requires Beside(end, other)
    ensures |Finish(r, other)| - |Finish(r, end)| == |other.declarations| - |end.declarations|
  {}

  /**
   * At one closing brace: a semicolon in front of it changes the result exactly when it would finish a declaration. At
   * a depth above 0 it finishes nothing, and what is pending is dropped with or without it.
   */
  lemma LostAtClose(r: Rules, before: string, after: string)
    requires Complete(r, before, START) && Separates(before, ";")
    ensures
      var st := Scan(r, before, START);
      Split(r, before + ("}" + after)) != Split(r, before + (";}" + after)) <==>
      Splits(st, ';') && Emitted(r, st.declarations, st.pending) != st.declarations
  {
    hide Complete, Scan, Split, Later, Emitted;
    var st := Scan(r, before, START);
    CloseAdds(r, before, after);
    SemicolonAdds(r, before, after);
    var later := Later(r, "}" + after, st.(pending := ""));
    var finished := if Splits(st, ';') then Emitted(r, st.declarations, st.pending) else st.declarations;
    SameFront(st.declarations, finished, later);
  }

  lemma SemicolonStep(r: Rules, after: string, st: Progress)
    ensures Scan(r, ";}" + after, st) == Scan(r, "}" + after, StepState(r, st, ';'))
  {
    hide SkipLength, Emit;
    var rest := ";}" + after;
    assert rest[1..] == "}" + after && StepLength(r, rest, st) == 1;
  }

  lemma SemicolonAdds(r: Rules, before: string, after: string)
    requires Complete(r, before, START) && Separates(before, ";")
    ensures
      var st := Scan(r, before, START);
      var finished := if Splits(st, ';') then Emitted(r, st.declarations, st.pending) else st.declarations;
      Split(r, before + (";}" + after)) == finished + Later(r, "}" + after, st.(pending := ""))
  {
    hide Complete, Later, Emitted, Scan, StepLength;
    var st := Scan(r, before, START);
    assert Separates(before, ";}" + after);
    ScanAppend(r, before, ";}" + after, START);
    SemicolonStep(r, after, st);
    var closed := StepState(r, st, ';');
    CloseForgets(r, after, closed);
    var front := closed.(pending := "");
    ScanAdds(r, "}" + after, front);
    SameLater(r, "}" + after, front, st.(pending := ""));
  }

  /** A text that ends with a closing brace ends with nothing pending. */
  lemma {:induction false} EndsClosed(r: Rules, text: string, st: Progress)
    requires Complete(r, text, st) && text != "" && text[|text| - 1] == '}'
    ensures Scan(r, text, st).pending == ""
    decreases |text|
  {
    hide GroupCloses, SkipLength;
    var n := StepLength(r, text, st);
    if n < |text| {
      assert text[n..][|text[n..]| - 1] == '}';
      EndsClosed(r, text[n..], StepState(r, st, text[0]));
    } else {
      assert text[n..] == [];
      OnlyBraceSteps(r, text, st);
    }
  }

  lemma OnlyBraceSteps(r: Rules, text: string, st: Progress)
    requires text != "" && text[|text| - 1] == '}' && StepLength(r, text, st) == |text|
    ensures StepState(r, st, text[0]).pending == ""
  {}

  // ----- What is lost from scopes

  /** Text that is recorded as the header of a scope. */
  predicate ScopeHead(r: Rules, head: string) {
    PlainAt(head, START) && r.opensScope(r.normalize(head)) && r.normalize(head) != "" && r.normalize(head)[0] != '#'
  }

  lemma ScopeStarts(r: Rules, head: string, rest: string)
    requires ScopeHead(r, head)
    ensures Scan(r, head + ("{" + rest), START) == Scan(r, rest, Progress([r.normalize(head)], "", 0, 0))
  {
    hide Unfinished, PushAll;
    PlainPushes(head, START);
    ScanUnfinished(r, head, "{" + rest, START);
    EmptyFront(head);
    ScopeOpens(r, head, rest);
  }

  lemma ScopeOpens(r: Rules, head: string, rest: string)
    requires ScopeHead(r, head)
    ensures Scan(r, "{" + rest, Progress([], head, 0, 0)) == Scan(r, rest, Progress([r.normalize(head)], "", 0, 0))
  {
    var st, all := Progress([], head, 0, 0), "{" + rest;
    assert all[1..] == rest;
    assert StepLength(r, all, st) == 1;
    assert [] + [r.normalize(head)] == [r.normalize(head)];
    assert Emit(r, st) == Progress([r.normalize(head)], "", 0, 0);
  }

  lemma ScopeCloses(r: Rules, st: Progress)
    ensures Scan(r, "};", st) == st.(pending := "")
  {
    assert "};"[2..] == "";
  }

  lemma EmptyFront(text: string)
    ensures "" + text == text
  {}

  /** Of a scope whose body finishes no declaration only the header is recorded: enumerators without braces, for one. */
  lemma ScopeBodyLost(r: Rules, head: string, body: string)
    requires ScopeHead(r, head) && r.normalize("") == "" && Unfinished(body, START)
    ensures Split(r, head + ("{" + (body + "};"))) == [r.normalize(head)]
  {
    hide Unfinished, PushAll, ScopeHead;
    var inside := Progress([r.normalize(head)], "", 0, 0);
    ScopeStarts(r, head, body + "};");
    UnfinishedAnywhere(body, START, inside);
    ScanUnfinished(r, body, "};", inside);
    ScopeCloses(r, PushAll(inside, body));
  }

  /** A braced value in such a body finishes what stands in front of it, and that much is recorded. */
  lemma BracedValueKept(r: Rules, head: string, front: string, value: string, tail: string)
    requires ScopeHead(r, head) && r.normalize("") == "" && Balanced(value, 0)
    requires Unfinished(front, START) && !r.opensScope(r.normalize(front))
    requires Unfinished(tail, PushAll(START, front))
    ensures Split(r, head + ("{" + (front + ("{" + value + "}" + (tail + "};"))))) == Emitted(r, [r.normalize(head)], front)
  {
    hide Unfinished, PushAll, ScopeHead, Balanced, Emitted;
    var inside := Progress([r.normalize(head)], "", 0, 0);
    var rest := "{" + value + "}" + (tail + "};");
    ScopeStarts(r, head, front + rest);
    UnfinishedAnywhere(front, START, inside);
    ScanUnfinished(r, front, rest, inside);
    var at := PushAll(inside, front);
    PushedPending(front, inside);
    PushedDepth(front, START, inside);
    EmptyFront(front);
    ScanGroup(r, value, tail + "};", at);
    var behind := Emit(r, at);
    UnfinishedAnywhere(tail, PushAll(START, front), behind);
    ScanUnfinished(r, tail, "};", behind);
    ScopeCloses(r, PushAll(behind, tail));
  }

  lemma {:induction false} PushedPending(text: string, st: Progress)
    ensures PushAll(st, text).pending == st.pending + text && PushAll(st, text).declarations == st.declarations
    decreases |text|
  {
    if text == [] {
      assert st.pending + text == st.pending;
    } else {
      PushedPending(text[1..], Push(st, text[0]));
      assert (st.pending + [text[0]]) + text[1..] == st.pending + text;
    }
  }

  lemma {:induction false} PushedDepth(text: string, a: Progress, b: Progress)
    requires a.parens == b.parens && a.brackets == b.brackets
    ensures PushAll(a, text).parens == PushAll(b, text).parens && PushAll(a, text).brackets == PushAll(b, text).brackets
    decreases |text|
  {
    if text != [] { PushedDepth(text[1..], Push(a, text[0]), Push(b, text[0])); }
  }

  /** No braces, nothing that changes the depth, and semicolons only where they do not split. */
  predicate PlainAt(text: string, st: Progress) {
    '{' !in text && '}' !in text && '(' !in text && ')' !in text && '[' !in text && ']' !in text
    && (';' in text ==> st.parens > 0 || st.brackets > 0)
  }

  lemma {:induction false} PlainPushes(text: string, st: Progress)
    requires PlainAt(text, st)
    ensures Unfinished(text, st) && PushAll(st, text) == st.(pending := st.pending + text)
    decreases |text|
  {
    if text == [] {
      assert st.pending + text == st.pending;
    } else {
      PlainPushes(text[1..], Push(st, text[0]));
      assert (st.pending + [text[0]]) + text[1..] == st.pending + text;
    }
  }

  lemma {:induction false} UnfinishedAnywhere(text: string, a: Progress, b: Progress)
    requires Unfinished(text, a) && a.parens == b.parens && a.brackets == b.brackets
    ensures Unfinished(text, b)
    decreases |text|
  {
    if text != [] { UnfinishedAnywhere(text[1..], Push(a, text[0]), Push(b, text[0])); }
  }

  lemma UnfinishedFirst(c: char, rest: string, st: Progress)
    requires c !in {'{', '}', ';'} && Unfinished(rest, Push(st, c))
    ensures Unfinished([c] + rest, st)
  {
    assert ([c] + rest)[1..] == rest;
  }

  lemma {:induction false} UnfinishedAppend(a: string, b: string, st: Progress)
    requires Unfinished(a, st) && Unfinished(b, PushAll(st, a))
    ensures Unfinished(a + b, st)
    decreases |a|
  {
    if a == [] {
      assert a + b == b;
    } else {
      assert (a + b)[1..] == a[1..] + b;
      UnfinishedAppend(a[1..], b, Push(st, a[0]));
    }
  }

  // ----- Inputs that lose declarations

  /** What the patterns say of the headers below. */
  predicate KnowsHeads(r: Rules) {
    r.normalize("") == ""
    && r.normalize("enum class E ") == "enum class E" && r.opensScope("enum class E")
    && r.normalize("class A ") == "class A" && r.opensScope("class A")
  }

  /** Two enumerations that a user of the header can tell apart and the baseline cannot. */
  lemma EnumWitness(r: Rules)
    requires KnowsHeads(r)
    ensures Split(r, "enum class E { A, B };") == Split(r, "enum class E { A = F(1), C };") == ["enum class E"]
  {
    hide Split, Unfinished, PushAll, ScopeHead;
    var head, plain, valued := "enum class E ", " A, B ", " A = F(1), C ";
    EnumOpens(r);
    PlainEnumerators();
    ValuedEnumerators();
    ScopeBodyLost(r, head, plain);
    ScopeBodyLost(r, head, valued);
    assert "enum class E { A, B };" == head + ("{" + (plain + "};"));
    assert "enum class E { A = F(1), C };" == head + ("{" + (valued + "};"));
  }

  /** A parenthesis in a literal keeps the depth above 0, so both members of the class are lost. */
  lemma LiteralWitness(r: Rules)
    requires KnowsHeads(r)
    ensures Split(r, "class A { char c = '('; int y; };") == ["class A"]
  {
    hide Split, Unfinished, PushAll, ScopeHead;
    var head, body := "class A ", " char c = '('; int y; ";
    ClassOpens(r);
    LiteralMembers();
    ScopeBodyLost(r, head, body);
    LiteralText();
  }

  /** A brace in a literal opens a group that ends with the class: what stands in between is skipped with it. */
  lemma BraceLiteralWitness(r: Rules)
    requires KnowsHeads(r) && r.normalize(" char c = '") == "char c = '" && !r.opensScope("char c = '")
    ensures Split(r, "class A { char c = '{'; int y; };") == ["class A", "char c = '"]
  {
    hide Split, Balanced, ScopeHead;
    ClassOpens(r);
    SkippedIsBalanced();
    UnclosedGroup(r, "class A ", " char c = '", "'; int y; ");
    BraceLiteralText();
  }

  lemma UnclosedGroup(r: Rules, head: string, front: string, skipped: string)
    requires ScopeHead(r, head) && r.normalize("") == "" && Balanced(skipped, 0)
    requires PlainAt(front, START) && !r.opensScope(r.normalize(front))
    ensures Split(r, head + ("{" + (front + ("{" + skipped + "}" + ";")))) == Emitted(r, [r.normalize(head)], front)
  {
    hide Unfinished, PushAll, ScopeHead, Balanced, Emitted;
    var inside := Progress([r.normalize(head)], "", 0, 0);
    var rest := "{" + skipped + "}" + ";";
    ScopeStarts(r, head, front + rest);
    PlainPushes(front, inside);
    ScanUnfinished(r, front, rest, inside);
    var at := PushAll(inside, front);
    EmptyFront(front);
    ScanGroup(r, skipped, ";", at);
    LastSemicolon(r, Emit(r, at));
  }

  lemma LastSemicolon(r: Rules, st: Progress)
    requires r.normalize("") == "" && st.pending == "" && Splits(st, ';')
    ensures Finish(r, Scan(r, ";", st)) == st.declarations
  {
    assert ";"[1..] == "";
  }

  lemma SkippedIsBalanced()
    ensures Balanced("'; int y; ", 0)
  {
    NoBracesBalanced("'; int y; ");
  }

  lemma {:induction false} NoBracesBalanced(text: string)
    requires '{' !in text && '}' !in text
    ensures Balanced(text, 0)
    decreases |text|
  {
    if text != [] { NoBracesBalanced(text[1..]); }
  }

  lemma BraceLiteralText()
    ensures "class A " + ("{" + (" char c = '" + ("{" + "'; int y; " + "}" + ";"))) == "class A { char c = '{'; int y; };"
  {
    assert "{" + "'; int y; " + "}" + ";" == "{'; int y; };";
    assert " char c = '" + "{'; int y; };" == " char c = '{'; int y; };";
    BraceLiteralTextBehind();
  }

  lemma BraceLiteralTextBehind()
    ensures "class A " + ("{" + " char c = '{'; int y; };") == "class A { char c = '{'; int y; };"
  {
    assert "{" + " char c = '{'; int y; };" == "{ char c = '{'; int y; };";
  }

  /** An enumerator with a braced value is recorded, up to the brace. */
  lemma BracedWitness(r: Rules)
    requires KnowsHeads(r) && r.normalize(" A = int") == "A = int" && !r.opensScope("A = int")
    ensures Split(r, "enum class E { A = int{1}, B};") == ["enum class E", "A = int"]
  {
    hide Split, Unfinished, PushAll, ScopeHead, Balanced;
    EnumOpens(r);
    BracedParts();
    BracedValueKept(r, "enum class E ", " A = int", "1", ", B");
    BracedText();
  }

  lemma BracedParts()
    ensures Unfinished(" A = int", START) && Unfinished(", B", PushAll(START, " A = int")) && Balanced("1", 0)
  {
    hide Unfinished, PushAll;
    PlainPushes(" A = int", START);
    PlainPushes(", B", PushAll(START, " A = int"));
    NoBracesBalanced("1");
  }

  lemma BracedText()
    ensures "enum class E " + ("{" + (" A = int" + ("{" + "1" + "}" + (", B" + "};")))) == "enum class E { A = int{1}, B};"
  {
    assert "{" + "1" + "}" + (", B" + "};") == "{1}, B};";
    assert " A = int" + "{1}, B};" == " A = int{1}, B};";
    assert "{" + " A = int{1}, B};" == "{ A = int{1}, B};";
  }

  lemma LiteralText()
    ensures "class A " + ("{" + (" char c = '('; int y; " + "};")) == "class A { char c = '('; int y; };"
  {
    assert " char c = '('; int y; " + "};" == " char c = '('; int y; };";
    LiteralTextBehind();
  }

  lemma LiteralTextBehind()
    ensures "class A " + ("{" + " char c = '('; int y; };") == "class A { char c = '('; int y; };"
  {
    assert "{" + " char c = '('; int y; };" == "{ char c = '('; int y; };";
  }

  lemma EnumOpens(r: Rules)
    requires KnowsHeads(r)
    ensures ScopeHead(r, "enum class E ")
  {}

  lemma ClassOpens(r: Rules)
    requires KnowsHeads(r)
    ensures ScopeHead(r, "class A ")
  {}

  lemma PlainEnumerators()
    ensures Unfinished(" A, B ", START)
  {
    hide Unfinished, PushAll;
    PlainPushes(" A, B ", START);
  }

  lemma ValuedEnumerators()
    ensures Unfinished(" A = F(1), C ", START)
  {
    hide Unfinished, PushAll;
    PlainPushes(" A = F", START);
    var st := PushAll(START, " A = F");
    var called := Push(st, '(');
    PlainPushes("1", called);
    PlainPushes(", C ", Push(PushAll(called, "1"), ')'));
    UnfinishedFirst(')', ", C ", PushAll(called, "1"));
    UnfinishedAppend("1", [')'] + ", C ", called);
    UnfinishedFirst('(', "1" + ([')'] + ", C "), st);
    UnfinishedAppend(" A = F", ['('] + ("1" + ([')'] + ", C ")), START);
    assert " A = F" + (['('] + ("1" + ([')'] + ", C "))) == " A = F(1), C ";
  }

  lemma LiteralMembers()
    ensures Unfinished(" char c = '('; int y; ", START)
  {
    hide Unfinished, PushAll, PlainAt;
    var front, back := " char c = '", "'; int y; ";
    LiteralFront();
    PlainPushes(front, START);
    var st := PushAll(START, front);
    LiteralBack(Push(st, '('));
    PlainPushes(back, Push(st, '('));
    UnfinishedFirst('(', back, st);
    UnfinishedAppend(front, ['('] + back, START);
    LiteralJoined();
  }

  lemma LiteralFront()
    ensures PlainAt(" char c = '", START)
  {}

  lemma LiteralBack(st: Progress)
    requires st.parens > 0
    ensures PlainAt("'; int y; ", st)
  {}

  lemma LiteralJoined()
    ensures " char c = '" + (['('] + "'; int y; ") == " char c = '('; int y; "
  {}
}
