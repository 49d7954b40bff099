/**
 * The complexity gate's measurement: lines are reduced to code characters, then function bodies are found by their
 * signature and matched braces. The regular expressions it consults are parameters.
 */
module FunctionBodies {
  import opened Options
  import opened Sequences
  import opened InlineBraces
  import Ratchet
  import Sorting

  // ----- codeOnly: what of a line is code

  /** What a line can leave open for the next one. */
  datatype Mode = BlockComment | RawString(delimiter: string)

  /** The first position from `index` on at which `part` stands, as `str.find`. */
  function Find(line: string, part: string, index: nat): (found: Option<nat>)
    ensures found.Some? ==> index <= found.value && found.value + |part| <= |line|
    ensures found.Some? ==> line[found.value..found.value + |part|] == part
    decreases |line| - index
  {
    if index + |part| > |line| then None
    else if line[index..index + |part|] == part then Some(index)
    else Find(line, part, index + 1)
  }

  function Terminator(mode: Mode): string {
    if mode.BlockComment? then "*/" else ")" + mode.delimiter + "\""
  }

  /** The delimiter and the end of a raw string's opener at `index`. */
  function RawOpener(line: string, index: nat): (opener: Option<(string, nat)>)
    ensures opener.Some? ==> index < opener.value.1 <= |line|
  {
    if PairAt(line, index, 'R', '"') && Find(line, "(", index + 2).Some? then
      var open := Find(line, "(", index + 2).value;
      Some((line[index + 2..open], open + 1))
    else None
  }

  /** One past the closing quote of a literal whose text starts at `index`; past the line's end if it is not closed. */
  function LiteralEnd(line: string, quote: char, index: nat): (end: nat)
    ensures index <= end
    decreases |line| - index
  {
    if index >= |line| then index
    else if line[index] == '\\' then LiteralEnd(line, quote, index + 2)
    else if line[index] == quote then index + 1
    else LiteralEnd(line, quote, index + 1)
  }

  datatype Code = Code(text: string, open: Option<Mode>)

  /** The code characters from `index` on, when `open` is still open. */
  function CodeFrom(line: string, index: nat, open: Option<Mode>): Code
    decreases |line| - index
  {
    if index >= |line| then Code("", open)
    else if open.Some? then
      var end := Find(line, Terminator(open.value), index);
      if end.None? then Code("", open) else CodeFrom(line, end.value + |Terminator(open.value)|, None)
    else if PairAt(line, index, '/', '/') then Code("", None)
    else if PairAt(line, index, '/', '*') then CodeFrom(line, index + 2, Some(BlockComment))
    else if RawOpener(line, index).Some? then
      var (delimiter, next) := RawOpener(line, index).value;
      CodeFrom(line, next, Some(RawString(delimiter)))
    else if line[index] == '"' || line[index] == '\'' then CodeFrom(line, LiteralEnd(line, line[index], index + 1), None)
    else
      var rest := CodeFrom(line, index + 1, None);
      Code([line[index]] + rest.text, rest.open)
  }

  /** The set of open modes that the source carries from line to line. */
  function AsSet(open: Option<Mode>): set<Mode> {
    if open.None? then {} else {open.value}
  }

  /** The code of the line is what is written so far and what the rest of the line gives. */
  predicate Written(line: string, open: Option<Mode>, code: string, index: nat, now: Option<Mode>) {
    var rest := CodeFrom(line, index, now);
    CodeFrom(line, 0, open) == Code(code + rest.text, rest.open)
  }

  /** One turn of the loop, branch by branch. */
  lemma WrittenStep(line: string, open: Option<Mode>, code: string, index: nat, now: Option<Mode>)
    requires index < |line| && Written(line, open, code, index, now)
    ensures now.Some? ==>
              var end := Find(line, Terminator(now.value), index);
              if end.None? then CodeFrom(line, 0, open) == Code(code, now)
              else Written(line, open, code, end.value + |Terminator(now.value)|, None)
    ensures now.None? && PairAt(line, index, '/', '/') ==> CodeFrom(line, 0, open) == Code(code, None)
    ensures now.None? && PairAt(line, index, '/', '*') ==> Written(line, open, code, index + 2, Some(BlockComment))
    ensures now.None? && !PairAt(line, index, '/', '/') && !PairAt(line, index, '/', '*') ==>
              var opener := RawOpener(line, index);
              if opener.Some? then Written(line, open, code, opener.value.1, Some(RawString(opener.value.0)))
              else if line[index] == '"' || line[index] == '\'' then
                Written(line, open, code, LiteralEnd(line, line[index], index + 1), None)
              else Written(line, open, code + [line[index]], index + 1, None)
  {
    hide Find, LiteralEnd, RawOpener, Terminator;
    assert code + "" == code;
    var rest := CodeFrom(line, index + 1, None);
    assert code + ([line[index]] + rest.text) == (code + [line[index]]) + rest.text;
  }

  lemma WrittenAtEnds(line: string, open: Option<Mode>, code: string, index: nat, now: Option<Mode>)
    ensures Written(line, open, "", 0, open)
    ensures index >= |line| && Written(line, open, code, index, now) ==> CodeFrom(line, 0, open) == Code(code, now)
  {
    assert code + "" == code;
    assert "" + CodeFrom(line, 0, open).text == CodeFrom(line, 0, open).text;
  }

  /** At most one mode is ever open, and the set tells which. */
  lemma AsSetFacts(open: Option<Mode>)
    ensures AsSet(open) == {} <==> open == None
    ensures forall mode :: mode in AsSet(open) ==> open == Some(mode) && AsSet(open) - {mode} == AsSet(None)
    ensures open == None ==> forall mode :: AsSet(open) + {mode} == AsSet(Some(mode))
    ensures |AsSet(open)| <= 1
  {}

  method CodeOnly(line: string, state: set<Mode>, ghost open: Option<Mode>) returns (code: string, after: set<Mode>)
    requires state == AsSet(open)
    ensures code == CodeFrom(line, 0, open).text && after == AsSet(CodeFrom(line, 0, open).open)
  {
    hide *;
    code, after := "", state;
    var index := 0;
    ghost var now := open;
    WrittenAtEnds(line, open, "", 0, open);
    while index < |line|
      invariant after == AsSet(now)
      invariant Written(line, open, code, index, now)
      decreases |line| - index
    {
      WrittenStep(line, open, code, index, now);
      AsSetFacts(now);
      if after != {} {
        var mode :| mode in after;
        var end := Find(line, Terminator(mode), index);
        if end.None? {
          return;
        }
        TerminatorLength(mode);
        after, now := after - {mode}, None;
        index := end.value + |Terminator(mode)|;
        continue;
      }
      if PairAt(line, index, '/', '/') {
        return;
      }
      if PairAt(line, index, '/', '*') {
        after, now := after + {BlockComment}, Some(BlockComment);
        index := index + 2;
        continue;
      }
      var opener := RawOpener(line, index);
      if opener.Some? {
        after, now := after + {RawString(opener.value.0)}, Some(RawString(opener.value.0));
        index := opener.value.1;
        continue;
      }
      if line[index] == '"' || line[index] == '\'' {
        index := LiteralEnd(line, line[index], index + 1);
        continue;
      }
      code := code + [line[index]];
      index := index + 1;
    }
    WrittenAtEnds(line, open, code, index, now);
  }

  lemma TerminatorLength(mode: Mode)
    ensures |Terminator(mode)| >= 2
  {}

  predicate Subsequence(a: string, b: string) {
    a == "" || (b != "" && if a[0] == b[0] then Subsequence(a[1..], b[1..]) else Subsequence(a, b[1..]))
  }

  lemma {:induction false} SubsequenceLater(a: string, line: string, index: nat, later: nat)
    requires index <= later <= |line| && Subsequence(a, line[later..])
    ensures Subsequence(a, line[index..])
    decreases later - index
  {
    if index < later {
      SubsequenceLater(a, line, index + 1, later);
      assert line[index..][1..] == line[index + 1..];
      SubsequenceDrop(a, line[index..]);
    }
  }

  lemma {:induction false} SubsequenceDrop(a: string, b: string)
    requires b != "" && Subsequence(a, b[1..])
    ensures Subsequence(a, b)
    decreases |b|, 0
  {
    if a != "" && a[0] == b[0] {
      SubsequenceTail(a, b[1..]);
    }
  }

  lemma {:induction false} SubsequenceTail(a: string, b: string)
    requires a != "" && Subsequence(a, b)
    ensures Subsequence(a[1..], b)
    decreases |b|, 1
  {
    if a[0] == b[0] {
      SubsequenceDrop(a[1..], b);
    } else {
      SubsequenceTail(a, b[1..]);
      SubsequenceDrop(a[1..], b);
    }
  }

  lemma SubsequenceNone(b: string)
    ensures Subsequence("", b)
  {}

  lemma SubsequenceHead(a: string, b: string)
    requires b != "" && Subsequence(a, b[1..])
    ensures Subsequence([b[0]] + a, b)
  {
    assert ([b[0]] + a)[1..] == a;
  }

  /** Code is characters of the line in order, none of them a quote: braces in literals and comments are not seen. */
  lemma {:induction false} CodeIsQuoteFree(line: string, index: nat, open: Option<Mode>)
    requires index <= |line|
    ensures Subsequence(CodeFrom(line, index, open).text, line[index..])
    ensures '"' !in CodeFrom(line, index, open).text && '\'' !in CodeFrom(line, index, open).text
    decreases |line| - index, 1
  {
    hide Find, LiteralEnd, RawOpener, Terminator, Subsequence;
    SubsequenceNone(line[index..]);
    if index < |line| {
      var text := CodeFrom(line, index, open).text;
      if open.Some? {
        var end := Find(line, Terminator(open.value), index);
        if end.Some? {
          TerminatorLength(open.value);
          CodeLater(line, index, end.value + |Terminator(open.value)|, None);
        }
      } else if PairAt(line, index, '/', '/') {
      } else if PairAt(line, index, '/', '*') {
        CodeLater(line, index, index + 2, Some(BlockComment));
      } else if RawOpener(line, index).Some? {
        var (delimiter, next) := RawOpener(line, index).value;
        CodeLater(line, index, next, Some(RawString(delimiter)));
      } else if line[index] == '"' || line[index] == '\'' {
        var end := LiteralEnd(line, line[index], index + 1);
        if end <= |line| {
          CodeLater(line, index, end, None);
        }
      } else {
        CodeIsQuoteFree(line, index + 1, None);
        assert line[index..][1..] == line[index + 1..];
        SubsequenceHead(CodeFrom(line, index + 1, None).text, line[index..]);
      }
    }
  }

  lemma {:induction false} CodeLater(line: string, index: nat, later: nat, open: Option<Mode>)
    requires index < later <= |line|
    ensures Subsequence(CodeFrom(line, later, open).text, line[index..])
    ensures '"' !in CodeFrom(line, later, open).text && '\'' !in CodeFrom(line, later, open).text
    decreases |line| - index, 0
  {
    CodeIsQuoteFree(line, later, open);
    SubsequenceLater(CodeFrom(line, later, open).text, line, index, later);
  }

  // ----- bodies_above_floor: where function bodies are

  /**
   * What the source takes from its patterns: whether a stripped line is a function head (FUNCTION_HEAD, and not a
   * control keyword), whether a stripped signature ends (FUNCTION_TAIL), which lines are comments or continuations.
   */
  datatype Patterns = Patterns(
    strip: string -> string,
    isHead: string -> bool,
    isTail: string -> bool,
    isComment: string -> bool,
    continues: string -> bool)

  /** `MAX_SIGNATURE_LINES`. */
  const MAX_SIGNATURE: nat := 12

  function Net(line: string, up: char, down: char): int {
    if line == "" then 0
    else Net(line[..|line| - 1], up, down)
         + if line[|line| - 1] == up then 1 else if line[|line| - 1] == down then -1 else 0
  }

  /** The last line above `index` that is neither blank nor a comment does not run on. */
  predicate PreviousEnds(p: Patterns, lines: seq<string>, index: nat)
    requires index <= |lines|
  {
    index == 0
    || var previous := p.strip(lines[index - 1]);
       if previous == "" || p.isComment(previous) then PreviousEnds(p, lines, index - 1) else !p.continues(previous)
  }

  /** The line on which the signature closes; braces of default arguments are taken out first. */
  function SignatureFrom(p: Patterns, lines: seq<string>, cursor: nat, limit: nat, depth: int): (end: Option<nat>)
    requires limit <= |lines|
    ensures end.Some? ==> cursor <= end.value < limit
    decreases limit - cursor
  {
    if cursor >= limit then None
    else
      var body := OnePass(lines[cursor]);
      var now := depth + Net(body, '(', ')');
      if ';' in body || '}' in body || now < 0 then None
      else if now == 0 && p.isTail(p.strip(body)) then Some(cursor)
      else if '{' in body && now > 0 then None
      else SignatureFrom(p, lines, cursor + 1, limit, now)
  }

  function SignatureEnd(p: Patterns, lines: seq<string>, index: nat): (end: Option<nat>)
    requires index < |lines|
    ensures end.Some? ==> index <= end.value < |lines|
  {
    SignatureFrom(p, lines, index, if index + MAX_SIGNATURE < |lines| then index + MAX_SIGNATURE else |lines|, 0)
  }

  function SkipBlank(p: Patterns, lines: seq<string>, index: nat): (next: nat)
    requires index <= |lines|
    ensures index <= next <= |lines|
    decreases |lines| - index
  {
    if index < |lines| && p.strip(lines[index]) == "" then SkipBlank(p, lines, index + 1) else index
  }

  /** The line with the body's opening brace: the signature's last line, or the next line that is not blank. */
  function OpenLine(p: Patterns, lines: seq<string>, end: nat): (open: Option<nat>)
    requires end < |lines|
    ensures open.Some? ==> end <= open.value < |lines|
  {
    var last := p.strip(lines[end]);
    if last != "" && last[|last| - 1] == '{' then Some(end)
    else
      var next := SkipBlank(p, lines, end + 1);
      if next < |lines| && p.strip(lines[next]) == "{" then Some(next) else None
  }

  /** The first line at whose end no brace is open. */
  function BodyEnd(lines: seq<string>, scan: nat, depth: int): (end: Option<nat>)
    requires scan <= |lines|
    ensures end.Some? ==> scan <= end.value < |lines|
    decreases |lines| - scan
  {
    if scan == |lines| then None
    else
      var now := depth + Net(lines[scan], '{', '}');
      if now <= 0 then Some(scan) else BodyEnd(lines, scan + 1, now)
  }

  datatype Extent = NoFunction | Unclosed | Body(end: nat)

  /** Whether a function starts at line `index`, and where it ends. */
  function ExtentAt(p: Patterns, lines: seq<string>, index: nat): (extent: Extent)
    requires index < |lines|
    ensures extent.Body? ==> index <= extent.end < |lines|
  {
    if !p.isHead(p.strip(lines[index])) || !PreviousEnds(p, lines, index) then NoFunction
    else
      var signature := SignatureEnd(p, lines, index);
      if signature.None? then NoFunction
      else
        var open := OpenLine(p, lines, signature.value);
        if open.None? then NoFunction
        else
          var end := BodyEnd(lines, open.value, 0);
          if end.None? then Unclosed else Body(end.value)
  }

  /** A function's first and last line. */
  datatype Interval = Interval(first: nat, last: nat)

  function Functions(p: Patterns, lines: seq<string>, index: nat): seq<Interval>
    requires index <= |lines|
    decreases |lines| - index
  {
    if index == |lines| then []
    else
      match ExtentAt(p, lines, index)
      case NoFunction => Functions(p, lines, index + 1)
      case Unclosed => []
      case Body(end) => [Interval(index, end)] + Functions(p, lines, end + 1)
  }

  function Size(f: Interval): int {
    f.last - f.first + 1
  }

  function Sizes(functions: seq<Interval>): seq<int> {
    seq(|functions|, i requires 0 <= i < |functions| => Size(functions[i]))
  }

  function Clean(lines: seq<string>, n: nat): (seq<string>, Option<Mode>)
    requires n <= |lines|
  {
    if n == 0 then ([], None)
    else
      var (before, open) := Clean(lines, n - 1);
      var code := CodeFrom(lines[n - 1], 0, open);
      (before + [code.text], code.open)
  }

  lemma {:induction false} CleanLength(lines: seq<string>, n: nat)
    requires n <= |lines|
    ensures |Clean(lines, n).0| == n
  {
    if n > 0 { CleanLength(lines, n - 1); }
  }

  lemma {:induction false} FilterAppend(a: seq<int>, b: seq<int>)
    ensures Ratchet.Filter(a + b) == Ratchet.Filter(a) + Ratchet.Filter(b)
  {
    if b == [] {
      assert a + b == a;
    } else {
      assert (a + b)[..|a + b| - 1] == a + b[..|b| - 1];
      FilterAppend(a, b[..|b| - 1]);
    }
  }

  /** What the scan has collected and what it will still find from `index` on. */
  ghost predicate Collected(p: Patterns, lines: seq<string>, bodies: seq<int>, index: nat) {
    index <= |lines| && LongFrom(p, lines, 0) == bodies + LongFrom(p, lines, index)
  }

  /** The sizes over the floor of the functions from `index` on. */
  function LongFrom(p: Patterns, lines: seq<string>, index: nat): seq<int>
    requires index <= |lines|
  {
    Ratchet.Filter(Sizes(Functions(p, lines, index)))
  }

  lemma FilterNone()
    ensures Ratchet.Filter([]) == []
  {}

  lemma LongFromAt(p: Patterns, lines: seq<string>, index: nat)
    requires index < |lines|
    ensures
      LongFrom(p, lines, index) ==
      match ExtentAt(p, lines, index)
      case NoFunction => LongFrom(p, lines, index + 1)
      case Unclosed => []
      case Body(end) =>
        var size := end - index + 1;
        (if size > Ratchet.FLOOR then [size] else []) + LongFrom(p, lines, end + 1)
  {
    FilterNone();
    hide ExtentAt, Functions, Sizes, Ratchet.Filter;
    SizesAt(p, lines, index);
    if ExtentAt(p, lines, index).Body? {
      var end := ExtentAt(p, lines, index).end;
      FilterOne(end - index + 1, Sizes(Functions(p, lines, end + 1)));
    }
  }

  lemma CollectOne(p: Patterns, lines: seq<string>, bodies: seq<int>, index: nat)
    requires index < |lines| && Collected(p, lines, bodies, index)
    ensures
      match ExtentAt(p, lines, index)
      case NoFunction => Collected(p, lines, bodies, index + 1)
      case Unclosed => bodies == LongFrom(p, lines, 0)
      case Body(end) =>
        var size := end - index + 1;
        Collected(p, lines, if size > Ratchet.FLOOR then bodies + [size] else bodies, end + 1)
  {
    hide ExtentAt, LongFrom;
    LongFromAt(p, lines, index);
    var extent := ExtentAt(p, lines, index);
    if extent.Body? {
      Regroup(bodies, extent.end - index + 1, LongFrom(p, lines, extent.end + 1));
    } else {
      assert bodies + [] == bodies;
    }
  }

  lemma Regroup(bodies: seq<int>, size: int, rest: seq<int>)
    ensures bodies + ((if size > Ratchet.FLOOR then [size] else []) + rest) ==
            (if size > Ratchet.FLOOR then bodies + [size] else bodies) + rest
  {}

  lemma SizesAt(p: Patterns, lines: seq<string>, index: nat)
    requires index < |lines|
    ensures
      Sizes(Functions(p, lines, index)) ==
      match ExtentAt(p, lines, index)
      case NoFunction => Sizes(Functions(p, lines, index + 1))
      case Unclosed => []
      case Body(end) => [end - index + 1] + Sizes(Functions(p, lines, end + 1))
  {
    hide ExtentAt;
    var extent := ExtentAt(p, lines, index);
    if extent.Body? {
      var rest := Functions(p, lines, extent.end + 1);
      assert Sizes([Interval(index, extent.end)] + rest) == [extent.end - index + 1] + Sizes(rest);
    }
  }

  lemma FilterOne(size: int, rest: seq<int>)
    ensures Ratchet.Filter([size] + rest) == (if size > Ratchet.FLOOR then [size] else []) + Ratchet.Filter(rest)
  {
    FilterAppend([size], rest);
    assert [size][..0] == [];
    assert Ratchet.Filter([size]) == if size > Ratchet.FLOOR then [size] else [];
  }

  /** One turn of the scan, branch by branch. */
  lemma CollectStep(p: Patterns, lines: seq<string>, bodies: seq<int>, index: nat)
    requires index < |lines| && Collected(p, lines, bodies, index)
    ensures
      var signature := SignatureEnd(p, lines, index);
      if !p.isHead(p.strip(lines[index])) || !PreviousEnds(p, lines, index) || signature.None?
         || OpenLine(p, lines, signature.value).None?
      then Collected(p, lines, bodies, index + 1)
      else
        var end := BodyEnd(lines, OpenLine(p, lines, signature.value).value, 0);
        if end.None? then Sorting.Sort(bodies, Ratchet.Longer) == Ratchet.Bodies(Sizes(Functions(p, lines, 0)))
        else
          index <= end.value < |lines|
          && var size := end.value - index + 1;
             Collected(p, lines, if size > Ratchet.FLOOR then bodies + [size] else bodies, end.value + 1)
  {
    hide Collected, SignatureEnd, OpenLine, PreviousEnds, BodyEnd, Functions;
    CollectOne(p, lines, bodies, index);
  }

  method FindBodyEnd(lines: seq<string>, openIndex: nat) returns (end: Option<nat>)
    requires openIndex <= |lines|
    ensures end == BodyEnd(lines, openIndex, 0)
  {
    var depth, scan := 0, openIndex;
    while scan < |lines|
      invariant openIndex <= scan <= |lines|
      invariant BodyEnd(lines, openIndex, 0) == BodyEnd(lines, scan, depth)
    {
      var line := lines[scan];
      ghost var before := depth;
      for i := 0 to |line|
        invariant depth == before + Net(line[..i], '{', '}')
      {
        assert line[..i + 1][..i] == line[..i];
        if line[i] == '{' {
          depth := depth + 1;
        } else if line[i] == '}' {
          depth := depth - 1;
        }
      }
      assert line[..|line|] == line;
      if depth <= 0 {
        return Some(scan);
      }
      scan := scan + 1;
    }
    end := None;
  }

  method CleanLines(lines: seq<string>) returns (cleaned: seq<string>)
    ensures cleaned == Clean(lines, |lines|).0
  {
    var state: set<Mode> := {};
    ghost var open: Option<Mode> := None;
    cleaned := [];
    for i := 0 to |lines|
      invariant (cleaned, open) == Clean(lines, i) && state == AsSet(open)
    {
      hide CodeFrom, AsSet;
      var text: string;
      ghost var before := open;
      open := CodeFrom(lines[i], 0, open).open;
      text, state := CodeOnly(lines[i], state, before);
      cleaned := cleaned + [text];
    }
  }

  /** The sizes of the functions over the floor, longest first. */
  method BodiesAboveFloor(p: Patterns, text: seq<string>) returns (bodies: seq<int>)
    ensures bodies == Ratchet.Bodies(Sizes(Functions(p, Clean(text, |text|).0, 0)))
  {
    hide *;
    var lines := CleanLines(text);
    bodies := [];
    var index := 0;
    CollectedAtStart(p, lines);
    while index < |lines|
      invariant Collected(p, lines, bodies, index)
      decreases |lines| - index
    {
      CollectStep(p, lines, bodies, index);
      if !p.isHead(p.strip(lines[index])) || !PreviousEnds(p, lines, index) {
        index := index + 1;
        continue;
      }
      var signatureEnd := SignatureEnd(p, lines, index);
      if signatureEnd.None? {
        index := index + 1;
        continue;
      }
      var openIndex := OpenLine(p, lines, signatureEnd.value);
      if openIndex.None? {
        index := index + 1;
        continue;
      }
      var end := FindBodyEnd(lines, openIndex.value);
      if end.None? {
        bodies := Sorting.Sort(bodies, Ratchet.Longer);
        return;
      }
      if end.value - index + 1 > Ratchet.FLOOR {
        bodies := bodies + [end.value - index + 1];
      }
      index := end.value + 1;
    }
    CollectedAtEnd(p, lines, bodies, index);
    bodies := Sorting.Sort(bodies, Ratchet.Longer);
  }

  lemma CollectedAtStart(p: Patterns, lines: seq<string>)
    ensures Collected(p, lines, [], 0)
  {
    assert [] + LongFrom(p, lines, 0) == LongFrom(p, lines, 0);
  }

  lemma CollectedAtEnd(p: Patterns, lines: seq<string>, bodies: seq<int>, index: nat)
    requires index >= |lines| && Collected(p, lines, bodies, index)
    ensures Sorting.Sort(bodies, Ratchet.Longer) == Ratchet.Bodies(Sizes(Functions(p, lines, 0)))
  {
    assert LongFrom(p, lines, index) == [] by { assert Sizes([]) == []; }
    assert bodies + [] == bodies;
  }

  // ----- Tiling

  /** The functions found lie in the text, in order, without overlap. */
  lemma {:induction false} FunctionsTile(p: Patterns, lines: seq<string>, index: nat)
    requires index <= |lines|
    ensures forall i :: 0 <= i < |Functions(p, lines, index)| ==>
              index <= Functions(p, lines, index)[i].first <= Functions(p, lines, index)[i].last < |lines|
    ensures forall i, j :: 0 <= i < j < |Functions(p, lines, index)| ==>
              Functions(p, lines, index)[i].last < Functions(p, lines, index)[j].first
    decreases |lines| - index
  {
    hide ExtentAt;
    if index < |lines| {
      match ExtentAt(p, lines, index)
      case NoFunction => FunctionsTile(p, lines, index + 1);
      case Unclosed =>
      case Body(end) => FunctionsTile(p, lines, end + 1);
    }
  }

  lemma NoSizesLeft(p: Patterns, lines: seq<string>)
    ensures Sizes(Functions(p, lines, |lines|)) == []
  {}

  lemma {:induction false} SizesFit(p: Patterns, lines: seq<string>, index: nat)
    requires index <= |lines|
    ensures Sum(Sizes(Functions(p, lines, index))) <= |lines| - index
    decreases |lines| - index
  {
    hide *;
    SumNone();
    if index == |lines| {
      NoSizesLeft(p, lines);
    } else {
      SizesAt(p, lines, index);
      var extent := ExtentAt(p, lines, index);
      if extent.Body? {
        SizesFit(p, lines, extent.end + 1);
        SumCons(extent.end - index + 1, Sizes(Functions(p, lines, extent.end + 1)));
      } else if extent.NoFunction? {
        SizesFit(p, lines, index + 1);
      }
    }
  }

  lemma {:induction false} FilterSum(sizes: seq<int>)
    requires forall i :: 0 <= i < |sizes| ==> sizes[i] >= 0
    ensures |Ratchet.Filter(sizes)| * (Ratchet.FLOOR + 1) <= Sum(Ratchet.Filter(sizes)) <= Sum(sizes)
  {
    if sizes != [] {
      var n := |sizes| - 1;
      var before := Ratchet.Filter(sizes[..n]);
      FilterSum(sizes[..n]);
      if sizes[n] > Ratchet.FLOOR {
        assert Ratchet.Filter(sizes) == before + [sizes[n]];
        SumAppend(before, [sizes[n]]);
        assert [sizes[n]][..0] == [];
      } else {
        assert Ratchet.Filter(sizes) == before;
      }
    }
  }

  /** What the gate reports for a file fits in it: the sizes add up to at most its lines, so there are few of them. */
  lemma ReportedSizesFit(p: Patterns, lines: seq<string>)
    ensures
      var bodies := Ratchet.Bodies(Sizes(Functions(p, Clean(lines, |lines|).0, 0)));
      |bodies| * (Ratchet.FLOOR + 1) <= Sum(bodies) <= |lines|
  {
    hide Functions, Clean;
    CleanLength(lines, |lines|);
    var cleaned := Clean(lines, |lines|).0;
    var functions := Functions(p, cleaned, 0);
    FunctionsTile(p, cleaned, 0);
    SizesFit(p, cleaned, 0);
    FilterSum(Sizes(functions));
    Ratchet.LongerIsTotal();
    var over := Ratchet.Filter(Sizes(functions));
    Sorting.SortIsSorted(over, Ratchet.Longer);
    SumPermutation(Ratchet.Bodies(Sizes(functions)), over);
    Sorting.SameLength(Ratchet.Bodies(Sizes(functions)), over);
  }
}
