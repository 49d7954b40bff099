/**
 * `stripInlineBraces` of the complexity gate: the pattern `\{[^{}]*\}` is replaced by nothing until the text stops
 * changing. One left-to-right pass with a stack gives the same text, in whatever order the groups are taken out.
 */
module InlineBraces {
  import opened Options

  /** The length of the longest prefix without braces. */
  function PlainLength(text: string): (n: nat)
    ensures n <= |text| && forall i :: 0 <= i < n ==> text[i] != '{' && text[i] != '}'
    ensures n < |text| ==> text[n] == '{' || text[n] == '}'
  {
    if text == [] || text[0] == '{' || text[0] == '}' then 0 else 1 + PlainLength(text[1..])
  }

  /** The pattern matches at the start of the text. */
  predicate GroupFirst(text: string) {
    text != [] && text[0] == '{'
    && var n := PlainLength(text[1..]); 1 + n < |text| && text[1 + n] == '}'
  }

  function GroupLength(text: string): (n: nat)
    requires GroupFirst(text)
    ensures 2 <= n <= |text|
  {
    PlainLength(text[1..]) + 2
  }

  /** One `sub("", text)`: every match is taken out, scanning from the left. */
  function Sub(text: string): (result: string)
    ensures |result| <= |text|
    ensures |result| == |text| ==> result == text
    decreases |text|
  {
    if text == [] then []
    else if GroupFirst(text) then Sub(text[GroupLength(text)..])
    else [text[0]] + Sub(text[1..])
  }

  // ----- The one-pass form

  /** The text kept so far and where in it the unmatched opening braces stand. */
  datatype Scan = Scan(out: string, opens: seq<nat>)

  predicate Sound(st: Scan) {
    forall i :: 0 <= i < |st.opens| ==>
      st.opens[i] < |st.out| && st.out[st.opens[i]] == '{' && (i > 0 ==> st.opens[i - 1] < st.opens[i])
  }

  /** A closing brace cuts the text back to the brace it matches. */
  function Step(st: Scan, c: char): (next: Scan)
    requires Sound(st)
    ensures Sound(next)
  {
    if c == '{' then Scan(st.out + [c], st.opens + [|st.out|])
    else if c == '}' && st.opens != [] then
      var last := |st.opens| - 1;
      OpensBelow(st, last);
      Scan(st.out[..st.opens[last]], st.opens[..last])
    else Scan(st.out + [c], st.opens)
  }

  lemma {:induction false} OpensBelow(st: Scan, k: nat)
    requires Sound(st) && k < |st.opens|
    ensures forall i :: 0 <= i < k ==> st.opens[i] < st.opens[k]
  {
    if k > 0 { OpensBelow(st, k - 1); }
  }

  function Fold(st: Scan, text: string): (end: Scan)
    requires Sound(st)
    ensures Sound(end)
    decreases |text|
  {
    if text == [] then st else Fold(Step(st, text[0]), text[1..])
  }

  /** The text without its stack-matched brace groups. */
  function OnePass(text: string): string {
    Fold(Scan([], []), text).out
  }

  // ----- The rewrite and the pass agree

  lemma {:induction false} FoldAppend(st: Scan, a: string, b: string)
    requires Sound(st)
    ensures Fold(st, a + b) == Fold(Fold(st, a), b)
    decreases |a|
  {
    if a == [] {
      assert a + b == b;
    } else {
      assert (a + b)[1..] == a[1..] + b;
      FoldAppend(Step(st, a[0]), a[1..], b);
    }
  }

  predicate BraceFree(text: string) {
    '{' !in text && '}' !in text
  }

  lemma {:induction false} FoldPlain(st: Scan, text: string)
    requires Sound(st) && BraceFree(text)
    ensures Fold(st, text) == Scan(st.out + text, st.opens)
    decreases |text|
  {
    if text == [] {
      assert st.out + text == st.out;
    } else {
      FoldPlain(Step(st, text[0]), text[1..]);
      assert (st.out + [text[0]]) + text[1..] == st.out + text;
    }
  }

  /** A brace-free group leaves no trace. */
  lemma FoldGroup(st: Scan, inner: string)
    requires Sound(st) && BraceFree(inner)
    ensures Fold(st, "{" + inner + "}") == st
  {
    var inside := Step(st, '{');
    var group := "{" + inner + "}";
    assert group[1..] == inner + "}";
    FoldAppend(inside, inner, "}");
    FoldPlain(inside, inner);
    var full := Scan(inside.out + inner, inside.opens);
    assert Fold(full, "}") == Step(full, '}') by { assert "}"[1..] == ""; }
    assert full.out[..|st.out|] == st.out && full.opens[..|st.opens|] == st.opens;
  }

  lemma {:induction false} FoldSub(st: Scan, text: string)
    requires Sound(st)
    ensures Fold(st, Sub(text)) == Fold(st, text)
    decreases |text|
  {
    if text == [] {
    } else if GroupFirst(text) {
      var n := GroupLength(text);
      var inner := text[1..n - 1];
      assert forall i :: 0 <= i < |inner| ==> inner[i] == text[1..][i];
      FoldGroup(st, inner);
      assert text == ("{" + inner + "}") + text[n..];
      FoldAppend(st, "{" + inner + "}", text[n..]);
      FoldSub(st, text[n..]);
    } else {
      FoldSub(Step(st, text[0]), text[1..]);
      assert Sub(text)[1..] == Sub(text[1..]);
    }
  }

  /** No opening brace stands before a closing one. */
  predicate ClosersFirst(text: string) {
    forall i, j :: 0 <= i < j < |text| ==> !(text[i] == '{' && text[j] == '}')
  }

  lemma {:induction false} StableShape(text: string)
    requires Sub(text) == text
    ensures ClosersFirst(text)
    decreases |text|
  {
    if text != [] {
      assert !GroupFirst(text);
      assert Sub(text)[1..] == Sub(text[1..]) == text[1..];
      StableShape(text[1..]);
      if text[0] == '{' {
        NoCloserAfter(text[1..], PlainLength(text[1..]));
      }
      forall i, j | 0 <= i < j < |text|
        ensures !(text[i] == '{' && text[j] == '}')
      {
        assert text[j] == text[1..][j - 1];
        if i > 0 { assert text[i] == text[1..][i - 1]; }
      }
    }
  }

  lemma NoCloserAfter(text: string, n: nat)
    requires ClosersFirst(text) && n == PlainLength(text) && (n < |text| ==> text[n] == '{')
    ensures forall j :: 0 <= j < |text| ==> text[j] != '}'
  {}

  lemma {:induction false} FoldStable(st: Scan, text: string)
    requires Sound(st) && ClosersFirst(text)
    requires st.opens != [] ==> '}' !in text
    ensures Fold(st, text).out == st.out + text
    decreases |text|
  {
    if text != [] {
      assert ClosersFirst(text[1..]) by {
        forall i, j | 0 <= i < j < |text[1..]|
          ensures !(text[1..][i] == '{' && text[1..][j] == '}')
        {
          assert text[1..][i] == text[i + 1] && text[1..][j] == text[j + 1];
        }
      }
      assert text[0] == '{' ==> '}' !in text[1..];
      FoldStable(Step(st, text[0]), text[1..]);
      assert (st.out + [text[0]]) + text[1..] == st.out + text;
    }
  }

  lemma StableIsOnePass(text: string)
    requires Sub(text) == text
    ensures OnePass(text) == text
  {
    StableShape(text);
    FoldStable(Scan([], []), text);
  }

  /** Rewriting until nothing changes ends, and gives the one-pass result. */
  method StripInlineBraces(text: string) returns (body: string)
    ensures body == OnePass(text)
    ensures ClosersFirst(body)
  {
    body := text;
    var previous: Option<string> := None;
    while previous != Some(body)
      invariant OnePass(body) == OnePass(text)
      invariant previous.Some? ==> body == Sub(previous.value)
      decreases |body| + if previous == Some(body) then 0 else 1
    {
      FoldSub(Scan([], []), body);
      previous := Some(body);
      body := Sub(body);
    }
    StableIsOnePass(body);
    StableShape(body);
  }

  // ----- What the result keeps, and that the order of removal is immaterial

  function Surplus(text: string): int {
    if text == [] then 0
    else Surplus(text[..|text| - 1])
         + if text[|text| - 1] == '{' then 1 else if text[|text| - 1] == '}' then -1 else 0
  }

  lemma {:induction false} SurplusAppend(a: string, b: string)
    ensures Surplus(a + b) == Surplus(a) + Surplus(b)
  {
    if b == [] {
      assert a + b == a;
    } else {
      assert (a + b)[..|a + b| - 1] == a + b[..|b| - 1];
      SurplusAppend(a, b[..|b| - 1]);
    }
  }

  /** Every opening brace kept is on the stack; the text before the first of them has no more openers. */
  predicate Tracked(st: Scan) {
    Sound(st) && forall i :: 0 <= i < |st.out| && st.out[i] == '{' ==> i in st.opens
  }

  /** Behind the last unmatched opening brace there are no braces. */
  lemma BehindLastOpen(st: Scan)
    requires Tracked(st) && ClosersFirst(st.out) && st.opens != []
    ensures BraceFree(st.out[st.opens[|st.opens| - 1] + 1..])
  {
    var last := |st.opens| - 1;
    var cut := st.opens[last];
    OpensBelow(st, last);
    forall i | cut < i < |st.out|
      ensures st.out[i] != '{' && st.out[i] != '}'
    {
      assert forall k :: 0 <= k < |st.opens| ==> st.opens[k] <= cut;
      assert i !in st.opens;
    }
  }

  lemma TrackedClose(st: Scan)
    requires Tracked(st) && ClosersFirst(st.out) && st.opens != []
    ensures Tracked(Step(st, '}')) && ClosersFirst(Step(st, '}').out)
  {
    var next := Step(st, '}');
    forall i | 0 <= i < |next.out| && next.out[i] == '{'
      ensures i in next.opens
    {
      assert st.out[i] == '{';
      var k :| 0 <= k < |st.opens| && st.opens[k] == i;
      assert next.opens[k] == i;
    }
  }

  lemma SurplusClose(out: string, cut: nat)
    requires cut < |out| && out[cut] == '{' && BraceFree(out[cut + 1..])
    ensures Surplus(out[..cut]) == Surplus(out + ['}'])
  {
    var tail := out[cut + 1..];
    assert out == out[..cut] + (['{'] + tail);
    SurplusPlain(tail);
    SurplusAppend(out, ['}']);
    SurplusAppend(out[..cut], ['{'] + tail);
    SurplusAppend(['{'], tail);
    assert Surplus(['{']) == 1 && Surplus(['}']) == -1 by { assert ['{'][..0] == [] && ['}'][..0] == []; }
  }

  lemma TrackedOpen(st: Scan)
    requires Tracked(st) && ClosersFirst(st.out)
    ensures Tracked(Step(st, '{')) && ClosersFirst(Step(st, '{').out)
  {
    var next := Step(st, '{');
    forall i | 0 <= i < |next.out| && next.out[i] == '{'
      ensures i in next.opens
    {
      if i < |st.out| {
        var k :| 0 <= k < |st.opens| && st.opens[k] == i;
        assert next.opens[k] == i;
      } else {
        assert next.opens[|st.opens|] == i;
      }
    }
  }

  lemma TrackedStep(st: Scan, c: char)
    requires Tracked(st) && ClosersFirst(st.out)
    ensures Tracked(Step(st, c)) && ClosersFirst(Step(st, c).out)
    ensures Surplus(Step(st, c).out) == Surplus(st.out + [c])
  {
    hide Surplus;
    if c == '{' {
      TrackedOpen(st);
    } else if c == '}' && st.opens != [] {
      TrackedClose(st);
      BehindLastOpen(st);
      SurplusClose(st.out, st.opens[|st.opens| - 1]);
    }
  }

  lemma {:induction false} SurplusPlain(text: string)
    requires BraceFree(text)
    ensures Surplus(text) == 0
  {
    if text != [] { SurplusPlain(text[..|text| - 1]); }
  }

  /** What the fold keeps: the stack has every opening brace, and closing braces come first. */
  predicate InShape(st: Scan) {
    Tracked(st) && ClosersFirst(st.out)
  }

  lemma {:induction false} FoldKeepsSurplus(st: Scan, text: string)
    requires InShape(st)
    ensures Surplus(Fold(st, text).out) == Surplus(st.out) + Surplus(text)
    decreases |text|
  {
    if text != [] {
      TrackedStep(st, text[0]);
      FoldKeepsSurplus(Step(st, text[0]), text[1..]);
      assert text == [text[0]] + text[1..];
      SurplusAppend([text[0]], text[1..]);
      SurplusAppend(st.out, [text[0]]);
    }
  }

  lemma {:induction false} FoldKeepsShape(st: Scan, text: string)
    requires InShape(st)
    ensures InShape(Fold(st, text))
    decreases |text|
  {
    if text != [] {
      TrackedStep(st, text[0]);
      FoldKeepsShape(Step(st, text[0]), text[1..]);
    }
  }

  /** The result has as many more opening than closing braces as the text, and all its closing braces come first. */
  lemma OnePassKeepsSurplus(text: string)
    ensures Surplus(OnePass(text)) == Surplus(text)
    ensures ClosersFirst(OnePass(text))
  {
    FoldKeepsSurplus(Scan([], []), text);
    FoldKeepsShape(Scan([], []), text);
  }

  /** `after` is `before` with one innermost group taken out. */
  ghost predicate Removal(before: string, after: string) {
    exists x: string, inner: string, y: string ::
      BraceFree(inner) && before == x + ("{" + inner + "}") + y && after == x + y
  }

  /** Taking out any innermost group anywhere does not change the result. */
  lemma RemovalInvisible(before: string, after: string)
    requires Removal(before, after)
    ensures OnePass(after) == OnePass(before)
  {
    var x, inner, y :| BraceFree(inner) && before == x + ("{" + inner + "}") + y && after == x + y;
    var start := Scan([], []);
    FoldAppend(start, x + ("{" + inner + "}"), y);
    FoldAppend(start, x, "{" + inner + "}");
    FoldGroup(Fold(start, x), inner);
    FoldAppend(start, x, y);
  }

  /** Groups taken out in any order, until no closing brace follows an opening one, leave the one-pass result. */
  lemma {:induction false} AnyOrderAgrees(texts: seq<string>)
    requires texts != [] && forall k :: 0 <= k < |texts| - 1 ==> Removal(texts[k], texts[k + 1])
    requires ClosersFirst(texts[|texts| - 1])
    ensures texts[|texts| - 1] == OnePass(texts[0])
    decreases |texts|
  {
    if |texts| == 1 {
      FoldStable(Scan([], []), texts[0]);
    } else {
      AnyOrderAgrees(texts[1..]);
      RemovalInvisible(texts[0], texts[1]);
    }
  }
}
