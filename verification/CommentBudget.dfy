/** The comment-budget gate on shell and CMake files: which lines count as a comment block and which are reported. */
module CommentBudget {
  import opened Options
  import opened Sequences

  /** `MAX_COMMENT_BLOCK_LINES`. */
  const MAX_BLOCK: nat := 3

  datatype Language = Shell | CMake

  /**
   * What the source takes from the library: Python's `isspace`, `is_exempt_comment`, and HEREDOC_WORD_PATTERN, which
   * given the line, a start and a limit yields the here-document's word if it matches there.
   */
  datatype Rules = Rules(
    isSpace: char -> bool,
    isExempt: (string, nat) -> bool,
    heredocWord: (string, nat, nat) -> Option<string>)

  /** Neither character that opens a comment or a here-document is white space. */
  predicate Sensible(r: Rules) {
    !r.isSpace('<') && !r.isSpace('#') && !r.isSpace('[')
  }

  // ----- Where a comment starts

  datatype Quoting = Quoting(quote: Option<char>, escaped: bool)

  function ShellAfter(q: Quoting, c: char): Quoting {
    if q.escaped then q.(escaped := false)
    else if c == '\\' && q.quote != Some('\'') then q.(escaped := true)
    else if q.quote.Some? then (if c == q.quote.value then q.(quote := None) else q)
    else if c == '\'' || c == '"' then q.(quote := Some(c))
    else q
  }

  function CMakeAfter(q: Quoting, c: char): Quoting {
    if q.escaped then q.(escaped := false)
    else if q.quote.Some? && c == '\\' then q.(escaped := true)
    else if c == '"' then q.(quote := if q.quote.Some? then None else Some('"'))
    else q
  }

  function QuotingAt(language: Language, line: string, i: nat): Quoting
    requires i <= |line|
  {
    if i == 0 then Quoting(None, false)
    else
      var before := QuotingAt(language, line, i - 1);
      if language.Shell? then ShellAfter(before, line[i - 1]) else CMakeAfter(before, line[i - 1])
  }

  /** An unquoted, unescaped `#`; in shell it must stand at the start of a word. */
  predicate StartsComment(r: Rules, language: Language, line: string, i: nat)
    requires i < |line|
  {
    QuotingAt(language, line, i) == Quoting(None, false) && line[i] == '#'
    && (language.Shell? ==> i == 0 || r.isSpace(line[i - 1]))
  }

  function CommentFrom(r: Rules, language: Language, line: string, i: nat): (index: Option<nat>)
    requires i <= |line|
    ensures index.Some? ==> i <= index.value < |line| && StartsComment(r, language, line, index.value)
    ensures forall k :: i <= k < (if index.Some? then index.value else |line|) ==> !StartsComment(r, language, line, k)
    decreases |line| - i
  {
    if i == |line| then None
    else if StartsComment(r, language, line, i) then Some(i)
    else CommentFrom(r, language, line, i + 1)
  }

  method ShellCommentIndex(r: Rules, line: string) returns (found: Option<nat>)
    ensures found == CommentFrom(r, Shell, line, 0)
  {
    var quote: Option<char> := None;
    var escaped := false;
    for index := 0 to |line|
      invariant Quoting(quote, escaped) == QuotingAt(Shell, line, index)
      invariant CommentFrom(r, Shell, line, 0) == CommentFrom(r, Shell, line, index)
    {
      var character := line[index];
      if escaped {
        escaped := false;
        continue;
      }
      if character == '\\' && quote != Some('\'') {
        escaped := true;
        continue;
      }
      if quote.Some? {
        if character == quote.value {
          quote := None;
        }
        continue;
      }
      if character == '\'' || character == '"' {
        quote := Some(character);
        continue;
      }
      if character == '#' && (index == 0 || r.isSpace(line[index - 1])) {
        return Some(index);
      }
    }
    found := None;
  }

  method CMakeCommentIndex(r: Rules, line: string) returns (found: Option<nat>)
    ensures found == CommentFrom(r, CMake, line, 0)
  {
    var inQuote, escaped := false, false;
    for index := 0 to |line|
      invariant QuotingAt(CMake, line, index) == Quoting(if inQuote then Some('"') else None, escaped)
      invariant CommentFrom(r, CMake, line, 0) == CommentFrom(r, CMake, line, index)
    {
      var character := line[index];
      if escaped {
        escaped := false;
        continue;
      }
      if inQuote && character == '\\' {
        escaped := true;
        continue;
      }
      if character == '"' {
        inQuote := !inQuote;
        continue;
      }
      if character == '#' && !inQuote {
        return Some(index);
      }
    }
    found := None;
  }

  // ----- Whether a here-document starts

  predicate StartsWith(line: string, prefix: string, index: nat) {
    index + |prefix| <= |line| && line[index..index + |prefix|] == prefix
  }

  function HeredocFrom(r: Rules, line: string, limit: nat, index: nat, quote: Option<char>, depth: int): Option<string>
    requires limit <= |line|
    decreases limit - index
  {
    if index >= limit then None
    else
      var c := line[index];
      if quote.Some? then
        if c == '\\' && quote.value == '"' then HeredocFrom(r, line, limit, index + 2, quote, depth)
        else HeredocFrom(r, line, limit, index + 1, if c == quote.value then None else quote, depth)
      else if c == '\\' then HeredocFrom(r, line, limit, index + 2, quote, depth)
      else if c == '\'' || c == '"' then HeredocFrom(r, line, limit, index + 1, Some(c), depth)
      else if depth != 0 then
        HeredocFrom(r, line, limit, index + 1, quote, if c == '(' then depth + 1 else if c == ')' then depth - 1 else depth)
      else if StartsWith(line, "$((", index) then HeredocFrom(r, line, limit, index + 3, quote, 2)
      else if StartsWith(line, "((", index) then HeredocFrom(r, line, limit, index + 2, quote, 2)
      else if StartsWith(line, "<<", index) && (index == 0 || line[index - 1] != '<') && r.heredocWord(line, index + 2, limit).Some? then
        r.heredocWord(line, index + 2, limit)
      else HeredocFrom(r, line, limit, index + 1, quote, depth)
  }

  function Limit(line: string, commentIndex: Option<nat>): nat {
    if commentIndex.Some? then commentIndex.value else |line|
  }

  function Heredoc(r: Rules, line: string, commentIndex: Option<nat>): Option<string>
    requires commentIndex.Some? ==> commentIndex.value < |line|
  {
    HeredocFrom(r, line, Limit(line, commentIndex), 0, None, 0)
  }

  method ShellHeredocTerminator(r: Rules, line: string, commentIndex: Option<nat>) returns (word: Option<string>)
    requires commentIndex.Some? ==> commentIndex.value < |line|
    ensures word == Heredoc(r, line, commentIndex)
  {
    var limit := Limit(line, commentIndex);
    var quote: Option<char> := None;
    var depth, index := 0, 0;
    while index < limit
      invariant Heredoc(r, line, commentIndex) == HeredocFrom(r, line, limit, index, quote, depth)
      decreases limit - index
    {
      var character := line[index];
      if quote.Some? {
        if character == '\\' && quote.value == '"' {
          index := index + 2;
          continue;
        }
        if character == quote.value {
          quote := None;
        }
        index := index + 1;
        continue;
      }
      if character == '\\' {
        index := index + 2;
        continue;
      }
      if character == '\'' || character == '"' {
        quote := Some(character);
        index := index + 1;
        continue;
      }
      if depth != 0 {
        if character == '(' {
          depth := depth + 1;
        } else if character == ')' {
          depth := depth - 1;
        }
        index := index + 1;
        continue;
      }
      if StartsWith(line, "$((", index) {
        depth := 2;
        index := index + 3;
        continue;
      }
      if StartsWith(line, "((", index) {
        depth := 2;
        index := index + 2;
        continue;
      }
      if StartsWith(line, "<<", index) && (index == 0 || line[index - 1] != '<') {
        var found := r.heredocWord(line, index + 2, limit);
        if found.Some? {
          return found;
        }
      }
      index := index + 1;
    }
    word := None;
  }

  /** A here-document needs its operator before the comment, so what precedes the comment is not blank. */
  lemma {:induction false} HeredocNeedsOperator(r: Rules, line: string, limit: nat, index: nat, quote: Option<char>, depth: int)
    requires limit <= |line| && HeredocFrom(r, line, limit, index, quote, depth).Some?
    ensures exists k :: index <= k < limit && line[k] == '<'
    decreases limit - index
  {
    var c := line[index];
    if quote.Some? {
      if c == '\\' && quote.value == '"' {
        HeredocNeedsOperator(r, line, limit, index + 2, quote, depth);
      } else {
        HeredocNeedsOperator(r, line, limit, index + 1, if c == quote.value then None else quote, depth);
      }
    } else if c == '\\' {
      HeredocNeedsOperator(r, line, limit, index + 2, quote, depth);
    } else if c == '\'' || c == '"' {
      HeredocNeedsOperator(r, line, limit, index + 1, Some(c), depth);
    } else if depth != 0 {
      HeredocNeedsOperator(r, line, limit, index + 1, quote, if c == '(' then depth + 1 else if c == ')' then depth - 1 else depth);
    } else if StartsWith(line, "$((", index) {
      HeredocNeedsOperator(r, line, limit, index + 3, quote, 2);
    } else if StartsWith(line, "((", index) {
      HeredocNeedsOperator(r, line, limit, index + 2, quote, 2);
    } else if StartsWith(line, "<<", index) {
      assert line[index] == line[index..index + 2][0] == '<';
    } else {
      HeredocNeedsOperator(r, line, limit, index + 1, quote, depth);
    }
  }

  // ----- The line-by-line check

  function StripLeft(r: Rules, text: string): string {
    if text != "" && r.isSpace(text[0]) then StripLeft(r, text[1..]) else text
  }

  function StripRight(r: Rules, text: string): string {
    if text != "" && r.isSpace(text[|text| - 1]) then StripRight(r, text[..|text| - 1]) else text
  }

  function Strip(r: Rules, text: string): string {
    StripRight(r, StripLeft(r, text))
  }

  predicate Contains(text: string, part: string) {
    exists i :: 0 <= i <= |text| && StartsWith(text, part, i)
  }

  /** What a line is to the block counter. */
  datatype Kind =
    | Break                              // not part of a block
    | Counted(opens: bool, closes: bool) // a line of a block; it may start a fresh block, and may end one

  /** What the scan carries from line to line, besides the counter. */
  datatype Context = Context(heredoc: Option<string>, bracket: bool)

  /** `#[[` at the comment, with no `]]` on the line. */
  predicate OpensBracket(language: Language, comment: string) {
    language.CMake? && StartsWith(comment, "#[[", 0) && !Contains(comment, "]]")
  }

  function KindOf(r: Rules, language: Language, c: Context, line: string, number: nat): Kind {
    if c.heredoc.Some? then Break
    else if language.CMake? && c.bracket then
      if Strip(r, line) == "]]" then Break else Counted(false, Contains(line, "]]"))
    else
      var index := CommentFrom(r, language, line, 0);
      if index.None? then Break
      else
        var comment, before := line[index.value..], line[..index.value];
        if OpensBracket(language, comment) then (if Strip(r, comment) == "#[[" then Break else Counted(true, false))
        else if Strip(r, before) != "" then Break
        else if r.isExempt(comment, number) then Break
        else Counted(false, false)
  }

  function ContextAfter(r: Rules, language: Language, c: Context, line: string): Context {
    if c.heredoc.Some? then (if StripLeft(r, line) == c.heredoc.value then c.(heredoc := None) else c)
    else if language.CMake? && c.bracket then c.(bracket := Strip(r, line) != "]]" && !Contains(line, "]]"))
    else
      var index := CommentFrom(r, language, line, 0);
      var heredoc := if language.Shell? then Heredoc(r, line, index) else None;
      Context(heredoc, index.Some? && OpensBracket(language, line[index.value..]))
  }

  function Kinds(r: Rules, language: Language, c: Context, lines: seq<string>, number: nat): (kinds: seq<Kind>)
    ensures |kinds| == |lines|
    decreases |lines|
  {
    if lines == [] then []
    else [KindOf(r, language, c, lines[0], number)] + Kinds(r, language, ContextAfter(r, language, c, lines[0]), lines[1..], number + 1)
  }

  /** Line `i` goes on with the block of the line before it. */
  predicate Continues(kinds: seq<Kind>, i: nat)
    requires i < |kinds|
  {
    i > 0 && kinds[i].Counted? && !kinds[i].opens && kinds[i - 1].Counted? && !kinds[i - 1].closes
  }

  /** The length, up to line `i`, of the block that line belongs to; 0 outside blocks. */
  function RunAt(kinds: seq<Kind>, i: nat): nat
    requires i < |kinds|
  {
    if kinds[i].Break? then 0 else if Continues(kinds, i) then RunAt(kinds, i - 1) + 1 else 1
  }

  /** The numbers of the lines reported among the first `n`. */
  function Reported(kinds: seq<Kind>, n: nat): seq<nat>
    requires n <= |kinds|
  {
    if n == 0 then [] else Reported(kinds, n - 1) + if RunAt(kinds, n - 1) > MAX_BLOCK then [n] else []
  }

  /** The counter's value once the first `n` lines are done. */
  function Carried(kinds: seq<Kind>, n: nat): nat
    requires n <= |kinds|
  {
    if n == 0 || kinds[n - 1].Break? || kinds[n - 1].closes then 0 else RunAt(kinds, n - 1)
  }

  const START := Context(None, false)

  /** The scan stands before line `i` in context `c`, and its counter is `run`. */
  predicate At(r: Rules, language: Language, lines: seq<string>, i: nat, c: Context, run: nat) {
    var kinds := Kinds(r, language, START, lines, 1);
    i <= |lines| && Kinds(r, language, c, lines[i..], i + 1) == kinds[i..]
    && run == Carried(kinds, i) && (c.heredoc.Some? ==> language.Shell? && run == 0) && (c.bracket ==> language.CMake?)
  }

  /** In shell, the line that opens a here-document ends any block, so the counter is 0 until the document is over. */
  lemma HeredocLineBreaks(r: Rules, c: Context, line: string, number: nat)
    requires Sensible(r) && ContextAfter(r, Shell, c, line).heredoc.Some?
    ensures KindOf(r, Shell, c, line, number) == Break
  {
    var index := CommentFrom(r, Shell, line, 0);
    if c.heredoc.None? && index.Some? {
      HeredocNeedsOperator(r, line, index.value, 0, None, 0);
      var k :| 0 <= k < index.value && line[k] == '<';
      var before := line[..index.value];
      assert before[k] == '<';
      NotBlank(r, before, k);
    }
  }

  lemma NotBlank(r: Rules, text: string, k: nat)
    requires k < |text| && !r.isSpace(text[k])
    ensures Strip(r, text) != ""
  {
    LeftNotBlank(r, text, k);
    var left := StripLeft(r, text);
    RightNotBlank(r, left, 0);
  }

  lemma {:induction false} LeftNotBlank(r: Rules, text: string, k: nat)
    requires k < |text| && !r.isSpace(text[k])
    ensures StripLeft(r, text) != "" && !r.isSpace(StripLeft(r, text)[0])
    decreases k
  {
    if r.isSpace(text[0]) { LeftNotBlank(r, text[1..], k - 1); }
  }

  lemma {:induction false} RightNotBlank(r: Rules, text: string, k: nat)
    requires k < |text| && !r.isSpace(text[k])
    ensures StripRight(r, text) != ""
    decreases |text|
  {
    if r.isSpace(text[|text| - 1]) { RightNotBlank(r, text[..|text| - 1], k); }
  }

  /** What one line does to the counter, by its kind. */
  lemma AtNext(r: Rules, language: Language, lines: seq<string>, i: nat, c: Context, run: nat)
    requires Sensible(r) && i < |lines| && At(r, language, lines, i, c, run)
    ensures
      var kinds := Kinds(r, language, START, lines, 1);
      var kind, next := KindOf(r, language, c, lines[i], i + 1), ContextAfter(r, language, c, lines[i]);
      match kind
      case Break => RunAt(kinds, i) == 0 && At(r, language, lines, i + 1, next, 0)
      case Counted(opens, closes) =>
        var length := if opens then 1 else run + 1;
        RunAt(kinds, i) == length && At(r, language, lines, i + 1, next, if closes then 0 else length)
  {
    hide KindOf, ContextAfter;
    var kinds := Kinds(r, language, START, lines, 1);
    var kind, next := KindOf(r, language, c, lines[i], i + 1), ContextAfter(r, language, c, lines[i]);
    assert lines[i..][0] == lines[i] && lines[i..][1..] == lines[i + 1..];
    assert kinds[i] == kinds[i..][0] == kind;
    assert kinds[i..][1..] == kinds[i + 1..];
    ContextStays(r, language, c, lines[i]);
    if language.Shell? && next.heredoc.Some? {
      HeredocLineBreaks(r, c, lines[i], i + 1);
    }
  }

  lemma ContextStays(r: Rules, language: Language, c: Context, line: string)
    requires (c.heredoc.Some? ==> language.Shell?) && (c.bracket ==> language.CMake?)
    ensures
      var next := ContextAfter(r, language, c, line);
      (next.heredoc.Some? ==> language.Shell?) && (next.bracket ==> language.CMake?)
  {}

  method CheckPlain(r: Rules, language: Language, lines: seq<string>) returns (errors: seq<nat>)
    requires Sensible(r)
    ensures errors == Reported(Kinds(r, language, START, lines, 1), |lines|)
  {
    errors := [];
    var run: nat := 0;
    var heredoc: Option<string> := None;
    var bracketComment := false;
    ghost var kinds := Kinds(r, language, START, lines, 1);
    assert lines[0..] == lines && kinds[0..] == kinds;
    for i := 0 to |lines|
      invariant At(r, language, lines, i, Context(heredoc, bracketComment), run)
      invariant errors == Reported(kinds, i)
    {
      ghost var c, before := Context(heredoc, bracketComment), errors;
      AtNext(r, language, lines, i, c, run);
      HeredocIsQuiet(r, language, lines, i, c, run);
      hide At, Kinds, RunAt, CommentFrom, Heredoc, Contains, Strip, StripLeft, StartsWith;
      var line := lines[i];
      if heredoc.Some? {
        if StripLeft(r, line) == heredoc.value {
          heredoc := None;
        }
        continue;
      }
      if language.CMake? && bracketComment {
        if Strip(r, line) == "]]" {
          bracketComment := false;
          run := 0;
          continue;
        }
        run := run + 1;
        if run > MAX_BLOCK {
          errors := errors + [i + 1];
        }
        if Contains(line, "]]") {
          bracketComment := false;
          run := 0;
        }
        continue;
      }
      var commentIndex: Option<nat>;
      if language.Shell? {
        commentIndex := ShellCommentIndex(r, line);
        heredoc := ShellHeredocTerminator(r, line, commentIndex);
      } else {
        commentIndex := CMakeCommentIndex(r, line);
      }
      if commentIndex.None? {
        run := 0;
        continue;
      }
      var comment := line[commentIndex.value..];
      if language.CMake? && StartsWith(comment, "#[[", 0) && !Contains(comment, "]]") {
        bracketComment := true;
        run := if Strip(r, comment) == "#[[" then 0 else 1;  // never above the budget, so nothing is reported here
        continue;
      }
      if Strip(r, line[..commentIndex.value]) != "" || r.isExempt(comment, i + 1) {
        run := 0;
        continue;
      }
      run := run + 1;
      if run > MAX_BLOCK {
        errors := errors + [i + 1];
      }
    }
  }

  lemma HeredocIsQuiet(r: Rules, language: Language, lines: seq<string>, i: nat, c: Context, run: nat)
    requires At(r, language, lines, i, c, run)
    ensures c.heredoc.Some? ==> language.Shell? && run == 0
    ensures c.bracket ==> language.CMake?
  {}

  // ----- What is reported

  /** Lines `a` to `b` are lines of one block. */
  predicate Together(kinds: seq<Kind>, a: nat, b: nat)
    requires b < |kinds|
  {
    (forall k :: a <= k <= b ==> kinds[k].Counted?) && forall k :: a < k <= b ==> Continues(kinds, k)
  }

  lemma {:induction false} RunLength(kinds: seq<Kind>, i: nat, length: nat)
    requires i < |kinds| && length > 0
    ensures RunAt(kinds, i) >= length <==> i + 1 >= length && Together(kinds, i + 1 - length, i)
  {
    if length > 1 && Continues(kinds, i) {
      RunLength(kinds, i - 1, length - 1);
    }
  }

  /** A line is reported exactly when it and the three lines before it are lines of one block. */
  lemma {:induction false} ReportedIffFourTogether(kinds: seq<Kind>, n: nat, i: nat)
    requires i < n <= |kinds|
    ensures i + 1 in Reported(kinds, n) <==> i >= 3 && Together(kinds, i - 3, i)
  {
    RunLength(kinds, i, 4);
    ReportedIsLong(kinds, n, i + 1);
  }

  lemma {:induction false} ReportedIsLong(kinds: seq<Kind>, n: nat, number: nat)
    requires n <= |kinds|
    ensures number in Reported(kinds, n) <==> 1 <= number <= n && RunAt(kinds, number - 1) > MAX_BLOCK
  {
    if n > 0 { ReportedIsLong(kinds, n - 1, number); }
  }

  /** The lengths of the blocks of the first `n` lines, in order. */
  function Blocks(kinds: seq<Kind>, n: nat): seq<nat>
    requires n <= |kinds|
  {
    if n == 0 then []
    else if kinds[n - 1].Break? then Blocks(kinds, n - 1)
    else
      var before := Blocks(kinds, n - 1);
      if Continues(kinds, n - 1) && before != [] then before[|before| - 1 := before[|before| - 1] + 1] else before + [1]
  }

  /** How many lines the blocks have beyond three each. */
  function Excess(lengths: seq<nat>): nat {
    if lengths == [] then 0
    else
      var last := lengths[|lengths| - 1];
      Excess(lengths[..|lengths| - 1]) + if last > MAX_BLOCK then last - MAX_BLOCK else 0
  }

  function CountedLines(kinds: seq<Kind>, n: nat): nat
    requires n <= |kinds|
  {
    if n == 0 then 0 else CountedLines(kinds, n - 1) + if kinds[n - 1].Counted? then 1 else 0
  }

  lemma {:induction false} LastBlock(kinds: seq<Kind>, n: nat)
    requires 0 < n <= |kinds| && kinds[n - 1].Counted?
    ensures Blocks(kinds, n) != [] && Blocks(kinds, n)[|Blocks(kinds, n)| - 1] == RunAt(kinds, n - 1)
  {
    if Continues(kinds, n - 1) {
      LastBlock(kinds, n - 1);
    }
  }

  /** Every counted line is in one block, and the reports are the lines the blocks have too many. */
  lemma {:induction false} ReportsAreExcess(kinds: seq<Kind>, n: nat)
    requires n <= |kinds|
    ensures |Reported(kinds, n)| == Excess(Blocks(kinds, n))
    ensures Sum(Blocks(kinds, n)) == CountedLines(kinds, n)
  {
    if n > 0 {
      ReportsAreExcess(kinds, n - 1);
      var before, after := Blocks(kinds, n - 1), Blocks(kinds, n);
      if kinds[n - 1].Counted? {
        LastBlock(kinds, n);
        if Continues(kinds, n - 1) {
          LastBlock(kinds, n - 1);
          assert after[..|after| - 1] == before[..|before| - 1];
        } else {
          assert after[..|after| - 1] == before;
        }
      }
    }
  }

  /** Lines `i - 3` to `i` are all counted. */
  predicate FourCounted(kinds: seq<Kind>, i: nat)
    requires 3 <= i < |kinds|
  {
    kinds[i - 3].Counted? && kinds[i - 2].Counted? && kinds[i - 1].Counted? && kinds[i].Counted?
  }

  /** No line opens or closes a block by itself. */
  predicate Plain(kinds: seq<Kind>) {
    forall i :: 0 <= i < |kinds| ==> kinds[i] in {Break, Counted(false, false)}
  }

  lemma PlainReport(kinds: seq<Kind>, i: nat)
    requires Plain(kinds) && i < |kinds|
    ensures i + 1 in Reported(kinds, |kinds|) <==> i >= 3 && FourCounted(kinds, i)
  {
    ReportedIffFourTogether(kinds, |kinds|, i);
    hide Reported;
    assert forall k :: 0 <= k < |kinds| && kinds[k].Counted? ==> kinds[k] == Counted(false, false);
  }

  /** In shell every counted line may carry on a block, so a file passes exactly when no four counted lines are adjacent. */
  lemma ShellPassesIff(r: Rules, lines: seq<string>)
    ensures
      var kinds := Kinds(r, Shell, START, lines, 1);
      Reported(kinds, |lines|) == [] <==> forall i :: 3 <= i < |lines| ==> !FourCounted(kinds, i)
  {
    hide Kinds, FourCounted, Plain, Reported;
    var kinds := Kinds(r, Shell, START, lines, 1);
    ShellKindsPlain(r, START, lines, 1);
    if Reported(kinds, |lines|) == [] {
      forall i | 3 <= i < |lines|
        ensures !FourCounted(kinds, i)
      {
        PlainReport(kinds, i);
      }
    } else {
      var number := Reported(kinds, |lines|)[0];
      assert number in Reported(kinds, |lines|);
      ReportedIsLong(kinds, |lines|, number);
      PlainReport(kinds, number - 1);
    }
  }

  lemma {:induction false} ShellKindsPlain(r: Rules, c: Context, lines: seq<string>, number: nat)
    ensures Plain(Kinds(r, Shell, c, lines, number))
    decreases |lines|
  {
    if lines != [] {
      ShellKindsPlain(r, ContextAfter(r, Shell, c, lines[0]), lines[1..], number + 1);
    }
  }

  // ----- What bracket comments let through

  /** Line `k` starts afresh: it opens a bracket comment, or the line before it closes one. */
  predicate Restarts(kinds: seq<Kind>, k: nat)
    requires 0 < k < |kinds|
  {
    (kinds[k].Counted? && kinds[k].opens) || (kinds[k - 1].Counted? && kinds[k - 1].closes)
  }

  /** One of the lines `i - 2` to `i` starts afresh. */
  predicate RestartsWithin(kinds: seq<Kind>, i: nat)
    requires 3 <= i < |kinds|
  {
    Restarts(kinds, i - 2) || Restarts(kinds, i - 1) || Restarts(kinds, i)
  }

  lemma FourTogether(kinds: seq<Kind>, i: nat)
    requires 3 <= i < |kinds| && FourCounted(kinds, i)
    ensures Together(kinds, i - 3, i) <==> Continues(kinds, i - 2) && Continues(kinds, i - 1) && Continues(kinds, i)
  {
    hide Continues;
  }

  /** The fourth of four adjacent counted lines escapes exactly when one of the last three starts afresh. */
  lemma EscapesIffRestart(kinds: seq<Kind>, i: nat)
    requires 3 <= i < |kinds| && FourCounted(kinds, i)
    ensures i + 1 !in Reported(kinds, |kinds|) <==> RestartsWithin(kinds, i)
  {
    ReportedIffFourTogether(kinds, |kinds|, i);
    FourTogether(kinds, i);
    hide Reported, Continues, Restarts, Together;
    ContinuesIff(kinds, i - 2);
    ContinuesIff(kinds, i - 1);
    ContinuesIff(kinds, i);
  }

  lemma ContinuesIff(kinds: seq<Kind>, k: nat)
    requires 0 < k < |kinds| && kinds[k - 1].Counted? && kinds[k].Counted?
    ensures Continues(kinds, k) <==> !Restarts(kinds, k)
  {}

  /** Bracket comments touch no other counted line. */
  predicate BracketsApart(kinds: seq<Kind>) {
    forall k :: 0 < k < |kinds| && Restarts(kinds, k) ==> kinds[k].Break? || kinds[k - 1].Break?
  }

  /** A CMake file passes exactly when every four adjacent counted lines have a restart among the last three. */
  lemma CMakePassesIff(r: Rules, lines: seq<string>)
    ensures
      var kinds := Kinds(r, CMake, START, lines, 1);
      Reported(kinds, |lines|) == [] <==>
      forall i :: 3 <= i < |lines| && FourCounted(kinds, i) ==> RestartsWithin(kinds, i)
  {
    hide Kinds, FourCounted, RestartsWithin;
    PassesIff(Kinds(r, CMake, START, lines, 1));
  }

  lemma PassesIff(kinds: seq<Kind>)
    ensures Reported(kinds, |kinds|) == [] <==>
            forall i :: 3 <= i < |kinds| && FourCounted(kinds, i) ==> RestartsWithin(kinds, i)
  {
    hide FourCounted, RestartsWithin, Reported;
    if Reported(kinds, |kinds|) == [] {
      forall i | 3 <= i < |kinds| && FourCounted(kinds, i)
        ensures RestartsWithin(kinds, i)
      {
        EscapesIffRestart(kinds, i);
      }
    } else {
      var number := Reported(kinds, |kinds|)[0];
      ReportedIsLong(kinds, |kinds|, number);
      assert number in Reported(kinds, |kinds|);
      LongIsFour(kinds, number - 1);
      EscapesIffRestart(kinds, number - 1);
    }
  }

  lemma LongIsFour(kinds: seq<Kind>, i: nat)
    requires i < |kinds| && RunAt(kinds, i) > MAX_BLOCK
    ensures i >= 3 && FourCounted(kinds, i)
  {
    RunLength(kinds, i, 4);
  }

  /** A CMake file whose bracket comments touch no other counted line passes exactly as a shell file does. */
  lemma ApartPassesIff(r: Rules, lines: seq<string>)
    requires BracketsApart(Kinds(r, CMake, START, lines, 1))
    ensures
      var kinds := Kinds(r, CMake, START, lines, 1);
      Reported(kinds, |lines|) == [] <==> forall i :: 3 <= i < |lines| ==> !FourCounted(kinds, i)
  {
    hide Kinds, Restarts;
    var kinds := Kinds(r, CMake, START, lines, 1);
    PassesIff(kinds);
    forall i | 3 <= i < |lines| && FourCounted(kinds, i)
      ensures !RestartsWithin(kinds, i)
    {
      assert !Restarts(kinds, i - 2) && !Restarts(kinds, i - 1) && !Restarts(kinds, i);
    }
  }

  /** A bracket comment of three lines with text on each. */
  const THREE_LINES := ["#[[#", "#", "#]]"]

  /** Bracket comments one right behind the other. */
  function Brackets(n: nat): (lines: seq<string>)
    ensures |lines| == 3 * n
  {
    if n == 0 then [] else THREE_LINES + Brackets(n - 1)
  }

  /** The kinds of the lines of such comments. */
  predicate Thirds(kinds: seq<Kind>) {
    forall i :: 0 <= i < |kinds| ==> kinds[i] == Third(i)
  }

  function Third(i: nat): Kind {
    Counted(i % 3 == 0, i % 3 == 2)
  }

  /** So the number of adjacent comment lines that pass has no bound. */
  lemma BracketsNeverReported(r: Rules, n: nat)
    requires Sensible(r)
    ensures
      var kinds := Kinds(r, CMake, START, Brackets(n), 1);
      Reported(kinds, 3 * n) == [] && forall i :: 0 <= i < 3 * n ==> kinds[i].Counted?
  {
    hide Kinds, Reported, RestartsWithin, FourCounted, Sensible;
    var kinds := Kinds(r, CMake, START, Brackets(n), 1);
    BracketKinds(r, n, 1);
    PassesIff(kinds);
    forall i | 3 <= i < 3 * n && FourCounted(kinds, i)
      ensures RestartsWithin(kinds, i)
    {
      RestartNear(kinds, i);
    }
  }

  lemma RestartNear(kinds: seq<Kind>, i: nat)
    requires 3 <= i < |kinds|
    requires Thirds(kinds)
    ensures RestartsWithin(kinds, i)
  {
    var k := i - i % 3;
    assert kinds[k] == Third(k) && k % 3 == 0;
    assert Restarts(kinds, k);
  }

  lemma {:induction false} BracketKinds(r: Rules, n: nat, number: nat)
    requires Sensible(r)
    ensures Thirds(Kinds(r, CMake, START, Brackets(n), number))
    decreases n
  {
    if n > 0 {
      hide KindOf, ContextAfter, Sensible, Thirds;
      BracketLines(r);
      BracketKinds(r, n - 1, number + 3);
      var lines, rest := Brackets(n), Brackets(n - 1);
      assert lines[0] == "#[[#" && lines[1..][0] == "#" && lines[1..][1..][0] == "#]]" && lines[1..][1..][1..] == rest;
      var kinds, later := Kinds(r, CMake, START, lines, number), Kinds(r, CMake, START, rest, number + 3);
      var inside := Context(None, true);
      assert Kinds(r, CMake, inside, lines[1..][1..], number + 2) == [Counted(false, true)] + later;
      assert Kinds(r, CMake, inside, lines[1..], number + 1) == [Counted(false, false)] + ([Counted(false, true)] + later);
      assert kinds == [Counted(true, false)] + ([Counted(false, false)] + ([Counted(false, true)] + later));
      ShiftKinds(kinds, later);
    }
  }

  lemma ShiftKinds(kinds: seq<Kind>, later: seq<Kind>)
    requires kinds == [Counted(true, false)] + ([Counted(false, false)] + ([Counted(false, true)] + later))
    requires Thirds(later)
    ensures Thirds(kinds)
  {
    forall i | 0 <= i < |kinds|
      ensures kinds[i] == Third(i)
    {
      if i >= 3 {
        assert kinds[i] == later[i - 3] == Third(i - 3);
      }
    }
  }

  /** Three `#` lines and a bracket comment of three lines right behind them. */
  const SIX_LINES := ["#", "#", "#", "#[[#", "#", "#]]"]

  /** Behind comment lines of the other kind a bracket comment starts afresh too: six adjacent lines, none reported. */
  lemma BracketStartsAfresh(r: Rules)
    requires Sensible(r) && forall n :: !r.isExempt("#", n)
    ensures
      var kinds := Kinds(r, CMake, START, SIX_LINES, 1);
      Reported(kinds, 6) == [] && forall i :: 0 <= i < 6 ==> kinds[i].Counted?
  {
    hide KindOf, ContextAfter, Reported, Sensible;
    var inside := Context(None, true);
    HashLine(r);
    BracketLines(r);
    assert Kinds(r, CMake, inside, ["#]]"], 6) == [Counted(false, true)];
    assert ["#", "#]]"][1..] == ["#]]"];
    assert Kinds(r, CMake, inside, ["#", "#]]"], 5) == [Counted(false, false), Counted(false, true)];
    assert ["#[[#", "#", "#]]"][1..] == ["#", "#]]"];
    assert Kinds(r, CMake, START, ["#[[#", "#", "#]]"], 4) == [Counted(true, false), Counted(false, false), Counted(false, true)];
    var kinds := Kinds(r, CMake, START, SIX_LINES, 1);
    assert SIX_LINES[1..][1..][1..] == ["#[[#", "#", "#]]"];
    assert kinds[1..] == Kinds(r, CMake, START, SIX_LINES[1..], 2);
    assert kinds[1..][1..] == Kinds(r, CMake, START, SIX_LINES[1..][1..], 3);
    assert kinds[1..][1..][1..] == Kinds(r, CMake, START, SIX_LINES[1..][1..][1..], 4);
    assert kinds == [Counted(false, false), Counted(false, false), Counted(false, false),
                     Counted(true, false), Counted(false, false), Counted(false, true)];
    SixKinds(kinds);
  }

  lemma HashLine(r: Rules)
    requires Sensible(r) && forall n :: !r.isExempt("#", n)
    ensures forall n :: KindOf(r, CMake, START, "#", n) == Counted(false, false)
    ensures ContextAfter(r, CMake, START, "#") == START
  {
    assert CommentFrom(r, CMake, "#", 0) == Some(0);
    assert "#"[0..] == "#" && "#"[..0] == "";
  }

  lemma BracketLines(r: Rules)
    requires Sensible(r)
    ensures forall n :: KindOf(r, CMake, START, "#[[#", n) == Counted(true, false)
    ensures ContextAfter(r, CMake, START, "#[[#") == Context(None, true)
    ensures forall n :: KindOf(r, CMake, Context(None, true), "#", n) == Counted(false, false)
    ensures ContextAfter(r, CMake, Context(None, true), "#") == Context(None, true)
    ensures forall n :: KindOf(r, CMake, Context(None, true), "#]]", n) == Counted(false, true)
    ensures ContextAfter(r, CMake, Context(None, true), "#]]") == START
  {
    var opening := "#[[#";
    assert CommentFrom(r, CMake, opening, 0) == Some(0);
    assert opening[0..] == opening;
    assert StartsWith(opening, "#[[", 0);
    forall i | 0 <= i <= |opening|
      ensures !StartsWith(opening, "]]", i)
    {
      if i + 2 <= |opening| { assert opening[i..i + 2][0] == opening[i]; }
    }
    assert Strip(r, opening) == opening;
    assert Strip(r, "#") == "#" && !Contains("#", "]]");
    var closing := "#]]";
    assert StartsWith(closing, "]]", 1);
    assert StripLeft(r, closing) == closing;
    RightKeepsFirst(r, closing);
  }

  lemma {:induction false} RightKeepsFirst(r: Rules, text: string)
    requires text != "" && !r.isSpace(text[0])
    ensures StripRight(r, text) != "" && StripRight(r, text)[0] == text[0]
    decreases |text|
  {
    if r.isSpace(text[|text| - 1]) { RightKeepsFirst(r, text[..|text| - 1]); }
  }

  lemma SixKinds(kinds: seq<Kind>)
    requires kinds == [Counted(false, false), Counted(false, false), Counted(false, false),
                       Counted(true, false), Counted(false, false), Counted(false, true)]
    ensures Reported(kinds, 6) == []
  {
    PassesIff(kinds);
    assert Restarts(kinds, 3);
    assert |kinds| == 6;
  }
}
