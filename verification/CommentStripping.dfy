/**
 * The two C++ comment strippers of the source gates. Both run one automaton over the text: the duplicate-code gate
 * deletes what the automaton calls comment, the platform-boundary gate overwrites it with spaces.
 */
module CommentStripping {
  import opened Sequences

  datatype Mode = Code | Line | Block | Str | Chr

  predicate Opens(text: string, second: char) {
    |text| >= 2 && text[0] == '/' && text[1] == second
  }

  predicate Closes(text: string) {
    |text| >= 2 && text[0] == '*' && text[1] == '/'
  }

  /** How many characters one step takes. */
  function Width(text: string, mode: Mode): (n: nat)
    requires text != []
    ensures 1 <= n <= |text|
  {
    match mode
    case Code => if Opens(text, '/') || Opens(text, '*') then 2 else 1
    case Line => 1
    case Block => if Closes(text) then 2 else 1
    case _ => if text[0] == '\\' && |text| > 1 then 2 else 1
  }

  function After(text: string, mode: Mode): Mode
    requires text != []
  {
    match mode
    case Code =>
      if Opens(text, '/') then Line else if Opens(text, '*') then Block
      else if text[0] == '"' then Str else if text[0] == '\'' then Chr else Code
    case Line => if text[0] == '\n' then Code else Line
    case Block => if Closes(text) then Code else Block
    case Str => if text[0] == '\\' && |text| > 1 then Str else if text[0] == '"' then Code else Str
    case Chr => if text[0] == '\\' && |text| > 1 then Chr else if text[0] == '\'' then Code else Chr
  }

  /** Whether the characters of one step are comment; line breaks inside a comment are not. */
  predicate IsComment(text: string, mode: Mode)
    requires text != []
  {
    match mode
    case Code => Opens(text, '/') || Opens(text, '*')
    case Line => text[0] != '\n'
    case Block => Closes(text) || text[0] != '\n'
    case _ => false
  }

  /** For every character, whether the automaton calls it comment. */
  function Marks(text: string, mode: Mode): (marks: seq<bool>)
    ensures |marks| == |text|
    decreases |text|
  {
    if text == [] then []
    else
      var n := Width(text, mode);
      seq(n, _ => IsComment(text, mode)) + Marks(text[n..], After(text, mode))
  }

  function Masked(text: string, marks: seq<bool>): (masked: string)
    requires |marks| == |text|
    ensures |masked| == |text|
  {
    seq(|text|, i requires 0 <= i < |text| => if marks[i] then ' ' else text[i])
  }

  function Kept(text: string, marks: seq<bool>): (kept: string)
    requires |marks| == |text|
    ensures |kept| <= |text|
  {
    if text == [] then [] else (if marks[0] then [] else [text[0]]) + Kept(text[1..], marks[1..])
  }

  /** What the platform-boundary gate's stripper returns. */
  function Mask(text: string): string {
    Masked(text, Marks(text, Code))
  }

  /** What the duplicate-code gate's stripper returns. */
  function Delete(text: string): string {
    Kept(text, Marks(text, Code))
  }

  // ----- The two loops

  lemma {:induction false} KeptAppend(a: string, b: string, aMarks: seq<bool>, bMarks: seq<bool>)
    requires |aMarks| == |a| && |bMarks| == |b|
    ensures Kept(a + b, aMarks + bMarks) == Kept(a, aMarks) + Kept(b, bMarks)
  {
    if a == [] {
      assert a + b == b && aMarks + bMarks == bMarks;
    } else {
      assert (a + b)[1..] == a[1..] + b && (aMarks + bMarks)[1..] == aMarks[1..] + bMarks;
      KeptAppend(a[1..], b, aMarks[1..], bMarks);
    }
  }

  lemma KeptStep(text: string, mode: Mode)
    requires text != []
    ensures
      var n := Width(text, mode);
      Kept(text, Marks(text, mode)) ==
      (if IsComment(text, mode) then [] else text[..n]) + Kept(text[n..], Marks(text[n..], After(text, mode)))
  {
    var n := Width(text, mode);
    var step := seq(n, _ => IsComment(text, mode));
    assert text == text[..n] + text[n..];
    KeptAppend(text[..n], text[n..], step, Marks(text[n..], After(text, mode)));
    KeptUniform(text[..n], step, IsComment(text, mode));
  }

  lemma {:induction false} KeptUniform(text: string, marks: seq<bool>, mark: bool)
    requires |marks| == |text| && forall i :: 0 <= i < |marks| ==> marks[i] == mark
    ensures Kept(text, marks) == if mark then [] else text
  {
    if text != [] {
      KeptUniform(text[1..], marks[1..], mark);
    }
  }

  predicate EscapeAt(text: string, index: nat) {
    index + 1 < |text| && text[index] == '\\'
  }

  function Quote(mode: Mode): char {
    if mode.Str? then '"' else '\''
  }

  /** What is still to be written from `index` on. */
  function KeptFrom(text: string, index: nat, mode: Mode): string
    requires index <= |text|
  {
    Kept(text[index..], Marks(text[index..], mode))
  }

  predicate Done(text: string, out: string, index: nat, mode: Mode)
    requires index <= |text|
  {
    Delete(text) == out + KeptFrom(text, index, mode)
  }

  /** What the deleting loop still has to write, branch by branch. */
  lemma DeletingStep(text: string, out: string, index: nat, mode: Mode)
    requires index < |text| && Done(text, out, index, mode)
    ensures mode.Code? && PairAt(text, index, '/', '/') ==> Done(text, out, index + 2, Line)
    ensures mode.Code? && PairAt(text, index, '/', '*') ==> Done(text, out, index + 2, Block)
    ensures mode.Code? && !PairAt(text, index, '/', '/') && !PairAt(text, index, '/', '*') ==>
              Done(text, out + [text[index]], index + 1, (if text[index] == '"' then Str else if text[index] == '\'' then Chr else Code))
    ensures mode.Line? ==> if text[index] == '\n' then Done(text, out + [text[index]], index + 1, Code) else Done(text, out, index + 1, Line)
    ensures mode.Block? && PairAt(text, index, '*', '/') ==> Done(text, out, index + 2, Code)
    ensures mode.Block? && !PairAt(text, index, '*', '/') ==>
              if text[index] == '\n' then Done(text, out + [text[index]], index + 1, Block) else Done(text, out, index + 1, Block)
    ensures (mode.Str? || mode.Chr?) && EscapeAt(text, index) ==> Done(text, out + [text[index]] + [text[index + 1]], index + 2, mode)
    ensures (mode.Str? || mode.Chr?) && !EscapeAt(text, index) ==>
              Done(text, out + [text[index]], index + 1, (if text[index] == Quote(mode) then Code else mode))
  {
    hide Marks, Kept;
    var rest, n := text[index..], Width(text[index..], mode);
    KeptStep(rest, mode);
    assert rest[n..] == text[index + n..];
    var after := After(rest, mode);
    var tail := KeptFrom(text, index + n, after);
    if IsComment(rest, mode) {
      assert out + ([] + tail) == out + tail;
      assert Done(text, out, index + n, after);
    } else if n == 1 {
      assert rest[..n] == [text[index]];
      assert out + ([text[index]] + tail) == (out + [text[index]]) + tail;
      assert Done(text, out + [text[index]], index + n, after);
    } else {
      assert rest[..n] == [text[index]] + [text[index + 1]];
      assert out + (rest[..n] + tail) == (out + [text[index]] + [text[index + 1]]) + tail;
      assert Done(text, out + [text[index]] + [text[index + 1]], index + n, after);
    }
  }

  method StripByDeleting(text: string) returns (output: string)
    ensures output == Delete(text)
  {
    output := [];
    var index, mode := 0, Code;
    assert text[0..] == text;
    while index < |text|
      invariant 0 <= index <= |text|
      invariant Done(text, output, index, mode)
    {
      hide Done;
      DeletingStep(text, output, index, mode);
      var character := text[index];
      if mode.Code? {
        if index + 1 < |text| && character == '/' && text[index + 1] == '/' {
          mode := Line;
          index := index + 2;
        } else if index + 1 < |text| && character == '/' && text[index + 1] == '*' {
          mode := Block;
          index := index + 2;
        } else {
          if character == '"' {
            mode := Str;
          } else if character == '\'' {
            mode := Chr;
          }
          output := output + [character];
          index := index + 1;
        }
      } else if mode.Line? {
        if character == '\n' {
          mode := Code;
          output := output + ['\n'];
        }
        index := index + 1;
      } else if mode.Block? {
        if index + 1 < |text| && character == '*' && text[index + 1] == '/' {
          mode := Code;
          index := index + 2;
        } else {
          if character == '\n' {
            output := output + ['\n'];
          }
          index := index + 1;
        }
      } else {
        output := output + [character];
        if character == '\\' && index + 1 < |text| {
          output := output + [text[index + 1]];
          index := index + 2;
        } else {
          if (mode.Str? && character == '"') || (mode.Chr? && character == '\'') {
            mode := Code;
          }
          index := index + 1;
        }
      }
    }
    assert text[index..] == [];
  }

  /** `marks` goes on from `index` as the automaton in `mode` does. */
  predicate Agrees(text: string, marks: seq<bool>, index: nat, mode: Mode)
    requires index <= |text| == |marks|
  {
    Marks(text[index..], mode) == marks[index..]
  }

  /** The array holds the masked text up to `index` and the text itself from there. */
  predicate MaskedTo(text: string, out: string, index: nat, mode: Mode) {
    var marks := Marks(text, Code);
    |out| == |text| && index <= |text| && Agrees(text, marks, index, mode)
    && forall i :: 0 <= i < |text| ==> out[i] == if i < index && marks[i] then ' ' else text[i]
  }

  /** What the masking loop has to overwrite, branch by branch. */
  lemma MaskingStep(text: string, out: string, index: nat, mode: Mode)
    requires index < |text| && MaskedTo(text, out, index, mode)
    ensures mode.Code? && PairAt(text, index, '/', '/') ==>
              MaskedTo(text, out[index := ' '][index + 1 := ' '], index + 2, Line)
    ensures mode.Code? && PairAt(text, index, '/', '*') ==> MaskedTo(text, out[index := ' '][index + 1 := ' '], index + 2, Block)
    ensures mode.Code? && !PairAt(text, index, '/', '/') && !PairAt(text, index, '/', '*') ==>
              MaskedTo(text, out, index + 1, (if text[index] == '"' then Str else if text[index] == '\'' then Chr else Code))
    ensures mode.Line? ==> if text[index] == '\n' then MaskedTo(text, out, index + 1, Code) else MaskedTo(text, out[index := ' '], index + 1, Line)
    ensures mode.Block? && PairAt(text, index, '*', '/') ==> MaskedTo(text, out[index := ' '][index + 1 := ' '], index + 2, Code)
    ensures mode.Block? && !PairAt(text, index, '*', '/') ==>
              if text[index] == '\n' then MaskedTo(text, out, index + 1, Block) else MaskedTo(text, out[index := ' '], index + 1, Block)
    ensures (mode.Str? || mode.Chr?) && EscapeAt(text, index) ==> MaskedTo(text, out, index + 2, mode)
    ensures (mode.Str? || mode.Chr?) && !EscapeAt(text, index) ==>
              MaskedTo(text, out, index + 1, (if text[index] == Quote(mode) then Code else mode))
  {
    hide Marks, Agrees;
    var marks := Marks(text, Code);
    var rest, n := text[index..], Width(text[index..], mode);
    var after, mark := After(rest, mode), IsComment(rest, mode);
    AgreesOneStep(text, marks, index, mode);
    assert mark && n == 1 ==> MaskedTo(text, out[index := ' '], index + 1, after);
    assert mark && n == 2 ==> MaskedTo(text, out[index := ' '][index + 1 := ' '], index + 2, after);
    assert !mark ==> MaskedTo(text, out, index + n, after);
  }

  lemma AgreesOneStep(text: string, marks: seq<bool>, index: nat, mode: Mode)
    requires index < |text| == |marks| && Agrees(text, marks, index, mode)
    ensures
      var rest, n := text[index..], Width(text[index..], mode);
      Agrees(text, marks, index + n, After(rest, mode))
      && forall i :: index <= i < index + n ==> marks[i] == IsComment(rest, mode)
  {
    var rest, n := text[index..], Width(text[index..], mode);
    var all := Marks(rest, mode);
    assert rest[n..] == text[index + n..];
    assert all[n..] == Marks(rest[n..], After(rest, mode));
    assert marks[index..][n..] == marks[index + n..];
    assert forall i :: index <= i < index + n ==> marks[i] == marks[index..][i - index];
  }

  lemma MaskedAtEnds(text: string, out: string)
    ensures MaskedTo(text, text, 0, Code)
    ensures forall mode :: MaskedTo(text, out, |text|, mode) ==> out == Mask(text)
  {
    assert text[0..] == text && Marks(text, Code)[0..] == Marks(text, Code);
  }

  method StripByMasking(text: string) returns (result: string)
    ensures result == Mask(text)
  {
    var output := new char[|text|](i requires 0 <= i < |text| => text[i]);
    assert output[..] == text;
    var index, mode := 0, Code;
    MaskedAtEnds(text, text);
    while index < |text|
      invariant 0 <= index <= |text|
      invariant MaskedTo(text, output[..], index, mode)
    {
      hide MaskedTo;
      ghost var out := output[..];
      MaskingStep(text, out, index, mode);
      var character := text[index];
      if mode.Code? {
        if index + 1 < |text| && character == '/' && text[index + 1] == '/' {
          output[index] := ' ';
          output[index + 1] := ' ';
          assert output[..] == out[index := ' '][index + 1 := ' '];
          mode := Line;
          index := index + 2;
        } else if index + 1 < |text| && character == '/' && text[index + 1] == '*' {
          output[index] := ' ';
          output[index + 1] := ' ';
          assert output[..] == out[index := ' '][index + 1 := ' '];
          mode := Block;
          index := index + 2;
        } else {
          if character == '"' {
            mode := Str;
          } else if character == '\'' {
            mode := Chr;
          }
          index := index + 1;
        }
      } else if mode.Line? {
        if character == '\n' {
          mode := Code;
        } else {
          output[index] := ' ';
          assert output[..] == out[index := ' '];
        }
        index := index + 1;
      } else if mode.Block? {
        if index + 1 < |text| && character == '*' && text[index + 1] == '/' {
          output[index] := ' ';
          output[index + 1] := ' ';
          assert output[..] == out[index := ' '][index + 1 := ' '];
          mode := Code;
          index := index + 2;
        } else {
          if character != '\n' {
            output[index] := ' ';
          }
          index := index + 1;
        }
      } else {
        if character == '\\' && index + 1 < |text| {
          index := index + 2;
        } else {
          if (mode.Str? && character == '"') || (mode.Chr? && character == '\'') {
            mode := Code;
          }
          index := index + 1;
        }
      }
    }
    result := output[..];
    MaskedAtEnds(text, result);
  }

  // ----- The two results

  /** Masking keeps the length and every line break where it was; it only ever writes spaces. */
  lemma MaskKeepsLayout(text: string)
    ensures |Mask(text)| == |text|
    ensures forall i :: 0 <= i < |text| ==>
              (Mask(text)[i] == '\n' <==> text[i] == '\n') && (Mask(text)[i] == text[i] || Mask(text)[i] == ' ')
  {
    NoBreakMarked(text, Code);
  }

  lemma {:induction false} NoBreakMarked(text: string, mode: Mode)
    ensures forall i :: 0 <= i < |text| && text[i] == '\n' ==> !Marks(text, mode)[i]
    decreases |text|
  {
    if text != [] {
      var n := Width(text, mode);
      NoBreakMarked(text[n..], After(text, mode));
      forall i | 0 <= i < |text| && text[i] == '\n'
        ensures !Marks(text, mode)[i]
      {
        if i >= n { assert text[n..][i - n] == text[i]; }
      }
    }
  }

  /** Deleting is masking with the masked positions taken out. */
  lemma DeleteRefinesMask(text: string)
    ensures Delete(text) == Kept(Mask(text), Marks(text, Code))
  {
    KeptOfMasked(text, Marks(text, Code));
  }

  lemma {:induction false} KeptOfMasked(text: string, marks: seq<bool>)
    requires |marks| == |text|
    ensures Kept(Masked(text, marks), marks) == Kept(text, marks)
  {
    if text != [] {
      assert Masked(text, marks)[1..] == Masked(text[1..], marks[1..]);
      KeptOfMasked(text[1..], marks[1..]);
    }
  }

  function Breaks(text: string): string {
    if text == [] then [] else (if text[0] == '\n' then ['\n'] else []) + Breaks(text[1..])
  }

  lemma {:induction false} BreaksKept(text: string, marks: seq<bool>)
    requires |marks| == |text| && forall i :: 0 <= i < |text| && text[i] == '\n' ==> !marks[i]
    ensures Breaks(Kept(text, marks)) == Breaks(text)
  {
    if text != [] {
      BreaksKept(text[1..], marks[1..]);
      var kept := Kept(text[1..], marks[1..]);
      if marks[0] {
        assert [] + kept == kept;
      } else {
        assert ([text[0]] + kept)[1..] == kept;
      }
    }
  }

  /** Both results have the line breaks of the text, so line numbers survive. */
  lemma LineCountKept(text: string)
    ensures Breaks(Delete(text)) == Breaks(text) && Breaks(Mask(text)) == Breaks(text)
  {
    NoBreakMarked(text, Code);
    BreaksKept(text, Marks(text, Code));
    BreaksMasked(text, Marks(text, Code));
  }

  lemma {:induction false} BreaksMasked(text: string, marks: seq<bool>)
    requires |marks| == |text| && forall i :: 0 <= i < |text| && text[i] == '\n' ==> !marks[i]
    ensures Breaks(Masked(text, marks)) == Breaks(text)
  {
    if text != [] {
      assert Masked(text, marks)[1..] == Masked(text[1..], marks[1..]);
      BreaksMasked(text[1..], marks[1..]);
    }
  }

  // ----- Idempotence

  /** The mode in which a stripped text is scanned where the original was scanned in `mode`. */
  function Rescan(mode: Mode): Mode {
    if mode == Line || mode == Block then Code else mode
  }

  predicate NoneMarked(marks: seq<bool>) {
    forall i :: 0 <= i < |marks| ==> !marks[i]
  }

  /** A text that starts as `text` does for one step, and is clean after it, is clean. */
  lemma CleanStep(stripped: string, mode: Mode)
    requires stripped != [] && !IsComment(stripped, mode)
    requires NoneMarked(Marks(stripped[Width(stripped, mode)..], After(stripped, mode)))
    ensures NoneMarked(Marks(stripped, mode))
  {}

  /** A step that is not comment is the same step where the stripped text starts with the same characters. */
  lemma SameStep(text: string, stripped: string, mode: Mode)
    requires text != [] && !IsComment(text, mode) && |stripped| <= |text|
    requires
      var n := Width(text, mode);
      n <= |stripped| && forall i :: 0 <= i < n ==> stripped[i] == text[i]
    requires mode == Code && text[0] == '/' && |stripped| > 1 ==> stripped[1] == text[1] || stripped[1] == ' '
    ensures Width(stripped, Rescan(mode)) == Width(text, mode)
    ensures After(stripped, Rescan(mode)) == Rescan(After(text, mode)) && !IsComment(stripped, Rescan(mode))
  {}

  /** In code state what is not a comment opener is kept, so it stays first. */
  lemma FirstKept(text: string)
    requires text != []
    ensures
      var kept := Kept(text, Marks(text, Code));
      !IsComment(text, Code) ==> kept != [] && kept[0] == text[0]
  {
    KeptStep(text, Code);
  }

  /** In code state a lone slash is never followed by something that makes it a comment opener. */
  lemma {:induction false} DeletedClean(text: string, mode: Mode)
    ensures NoneMarked(Marks(Kept(text, Marks(text, mode)), Rescan(mode)))
    decreases |text|
  {
    if text != [] {
      hide Marks, Kept, NoneMarked;
      var n := Width(text, mode);
      var tail := Kept(text[n..], Marks(text[n..], After(text, mode)));
      KeptStep(text, mode);
      DeletedClean(text[n..], After(text, mode));
      if IsComment(text, mode) {
        assert [] + tail == tail;
        assert Rescan(After(text, mode)) == Rescan(mode);
      } else {
        var kept := text[..n] + tail;
        if mode == Code && text[0] == '/' && n < |text| {
          FirstKept(text[n..]);
        }
        assert kept[n..] == tail;
        SameStep(text, kept, mode);
        CleanStep(kept, Rescan(mode));
      }
    }
  }

  lemma {:induction false} KeptAll(text: string, marks: seq<bool>)
    requires |marks| == |text| && NoneMarked(marks)
    ensures Kept(text, marks) == text && Masked(text, marks) == text
  {
    KeptUniform(text, marks, false);
  }

  /** Deleting comments can never create a comment: doing it twice changes nothing. */
  lemma DeleteIdempotent(text: string)
    ensures Delete(Delete(text)) == Delete(text)
  {
    DeletedClean(text, Code);
    KeptAll(Delete(text), Marks(Delete(text), Code));
  }

  lemma {:induction false} MaskedClean(text: string, mode: Mode)
    ensures NoneMarked(Marks(Masked(text, Marks(text, mode)), Rescan(mode)))
    decreases |text|
  {
    if text != [] {
      var n, after := Width(text, mode), After(text, mode);
      var masked := Masked(text, Marks(text, mode));
      var tail := Masked(text[n..], Marks(text[n..], after));
      MaskedClean(text[n..], after);
      assert masked[n..] == tail;
      if IsComment(text, mode) {
        assert Rescan(after) == Rescan(mode) == Code;
        if n == 2 {
          assert masked[1..] == [' '] + tail;
          SpaceClean(tail);
          SpaceClean(masked[1..]);
        } else {
          SpaceClean(tail);
        }
        assert masked == [' '] + masked[1..];
      } else {
        assert forall i :: 0 <= i < n ==> masked[i] == text[i];
        if mode == Code && text[0] == '/' && n < |text| {
          assert masked[1] in {text[1], ' '};
        }
        SameStep(text, masked, mode);
        CleanStep(masked, Rescan(mode));
      }
    }
  }

  lemma SpaceClean(tail: string)
    requires NoneMarked(Marks(tail, Code))
    ensures NoneMarked(Marks([' '] + tail, Code))
  {
    var text := [' '] + tail;
    assert text[1..] == tail;
    CleanStep(text, Code);
  }

  /** Masking comments can never create a comment either. */
  lemma MaskIdempotent(text: string)
    ensures Mask(Mask(text)) == Mask(text)
  {
    MaskedClean(text, Code);
    KeptAll(Mask(text), Marks(Mask(text), Code));
  }

  // ----- What the automaton means

  function EndMode(text: string, mode: Mode): Mode
    decreases |text|
  {
    if text == [] then mode else EndMode(text[Width(text, mode)..], After(text, mode))
  }

  /** The text ends in the first half of what may be a two-character step. */
  predicate Hangs(text: string, mode: Mode)
    decreases |text|
  {
    text != []
    && if |text| == 1 then
         match mode
         case Code => text[0] == '/'
         case Line => false
         case Block => text[0] == '*'
         case _ => text[0] == '\\'
       else Hangs(text[Width(text, mode)..], After(text, mode))
  }

  lemma FirstStep(a: string, b: string, mode: Mode)
    requires a != [] && !Hangs(a, mode)
    ensures Width(a + b, mode) == Width(a, mode) && After(a + b, mode) == After(a, mode)
    ensures IsComment(a + b, mode) == IsComment(a, mode)
    ensures !Hangs(a[Width(a, mode)..], After(a, mode)) && EndMode(a, mode) == EndMode(a[Width(a, mode)..], After(a, mode))
  {}

  function Uniform(n: nat, mark: bool): seq<bool> {
    seq(n, _ => mark)
  }

  lemma MarksStep(text: string, mode: Mode)
    requires text != []
    ensures
      var n := Width(text, mode);
      Marks(text, mode) == Uniform(n, IsComment(text, mode)) + Marks(text[n..], After(text, mode))
  {}

  lemma NothingBefore(b: string, mode: Mode)
    ensures EndMode("", mode) == mode && Marks("", mode) + Marks(b, mode) == Marks(b, mode)
  {}

  lemma Associate(a: seq<bool>, b: seq<bool>, c: seq<bool>)
    ensures a + (b + c) == (a + b) + c
  {}

  /** A text that does not hang can be scanned on its own. */
  lemma {:induction false} MarksAppend(a: string, b: string, mode: Mode)
    requires !Hangs(a, mode)
    ensures Marks(a + b, mode) == Marks(a, mode) + Marks(b, EndMode(a, mode))
    decreases |a|
  {
    hide *;
    if a == [] {
      NothingBefore(b, mode);
      assert a + b == b;
    } else {
      var n, after := Width(a, mode), After(a, mode);
      FirstStep(a, b, mode);
      MarksStep(a, mode);
      MarksStep(a + b, mode);
      assert (a + b)[n..] == a[n..] + b;
      MarksAppend(a[n..], b, after);
      Associate(Uniform(n, IsComment(a, mode)), Marks(a[n..], after), Marks(b, EndMode(a, mode)));
    }
  }

  lemma DeleteAppend(a: string, b: string)
    requires !Hangs(a, Code)
    ensures Delete(a + b) == Delete(a) + Kept(b, Marks(b, EndMode(a, Code)))
  {
    MarksAppend(a, b, Code);
    KeptAppend(a, b, Marks(a, Code), Marks(b, EndMode(a, Code)));
  }

  lemma {:induction false} LineTail(c: string, b: string)
    requires '\n' !in c
    ensures Kept(c + ['\n'] + b, Marks(c + ['\n'] + b, Line)) == ['\n'] + Delete(b)
  {
    var text := c + ['\n'] + b;
    KeptStep(text, Line);
    if c == [] {
      assert text[1..] == b && text[..1] == ['\n'];
    } else {
      assert text[1..] == c[1..] + ['\n'] + b;
      LineTail(c[1..], b);
    }
  }

  /** In code state a line comment goes up to its line break, which stays. */
  lemma LineCommentDeleted(a: string, c: string, b: string)
    requires EndMode(a, Code) == Code && !Hangs(a, Code) && '\n' !in c
    ensures Delete(a + ("//" + c + "\n" + b)) == Delete(a) + ("\n" + Delete(b))
  {
    hide Marks, Kept, EndMode, Hangs;
    var comment := "//" + c + "\n" + b;
    DeleteAppend(a, comment);
    KeptStep(comment, Code);
    assert comment[2..] == c + ['\n'] + b;
    LineTail(c, b);
    assert [] + ("\n" + Delete(b)) == "\n" + Delete(b);
  }

  predicate HasCloser(text: string) {
    |text| >= 2 && (Closes(text) || HasCloser(text[1..]))
  }

  lemma {:induction false} BlockTail(c: string, b: string)
    requires !HasCloser(c)
    ensures Kept(c + "*/" + b, Marks(c + "*/" + b, Block)) == Breaks(c) + Delete(b)
  {
    var text := c + "*/" + b;
    KeptStep(text, Block);
    if c == [] {
      assert text[2..] == b;
    } else {
      assert text[1..] == c[1..] + "*/" + b;
      assert !Closes(text);
      BlockTail(c[1..], b);
      assert text[..1] == [c[0]];
    }
  }

  /** In code state a block comment goes up to the first closer; only its line breaks stay. */
  lemma BlockCommentDeleted(a: string, c: string, b: string)
    requires EndMode(a, Code) == Code && !Hangs(a, Code) && !HasCloser(c)
    ensures Delete(a + ("/*" + c + "*/" + b)) == Delete(a) + (Breaks(c) + Delete(b))
  {
    hide Marks, Kept, HasCloser, Breaks, EndMode, Hangs;
    var comment := "/*" + c + "*/" + b;
    DeleteAppend(a, comment);
    KeptStep(comment, Code);
    assert comment[2..] == c + "*/" + b;
    BlockTail(c, b);
    assert [] + (Breaks(c) + Delete(b)) == Breaks(c) + Delete(b);
  }

  /** Text of a literal: a backslash takes the next character along, and no other character is the quote. */
  predicate Inside(mode: Mode, lit: string) {
    lit == []
    || if lit[0] == '\\' then |lit| > 1 && Inside(mode, lit[2..]) else lit[0] != Quote(mode) && Inside(mode, lit[1..])
  }

  lemma {:induction false} LiteralTail(mode: Mode, lit: string, b: string)
    requires (mode == Str || mode == Chr) && Inside(mode, lit)
    ensures
      var text := lit + [Quote(mode)] + b;
      Kept(text, Marks(text, mode)) == lit + [Quote(mode)] + Delete(b)
    decreases |lit|
  {
    hide Marks, Kept;
    var text := lit + [Quote(mode)] + b;
    KeptStep(text, mode);
    if lit == [] {
      assert text[1..] == b && text[..1] == [Quote(mode)];
    } else {
      var n := if lit[0] == '\\' then 2 else 1;
      assert Width(text, mode) == n && After(text, mode) == mode;
      LiteralTail(mode, lit[n..], b);
      assert text[n..] == lit[n..] + [Quote(mode)] + b && text[..n] == lit[..n];
      assert lit[..n] + (lit[n..] + [Quote(mode)] + Delete(b)) == lit + [Quote(mode)] + Delete(b);
    }
  }

  /** A literal is kept whatever it holds, comment openers and escaped quotes included. */
  lemma LiteralKept(a: string, mode: Mode, lit: string, b: string)
    requires EndMode(a, Code) == Code && !Hangs(a, Code)
    requires (mode == Str || mode == Chr) && Inside(mode, lit)
    ensures Delete(a + ([Quote(mode)] + (lit + [Quote(mode)] + b))) == Delete(a) + ([Quote(mode)] + (lit + [Quote(mode)] + Delete(b)))
  {
    hide Marks, Kept, EndMode, Hangs, Inside;
    var rest := lit + [Quote(mode)] + b;
    var literal := [Quote(mode)] + rest;
    DeleteAppend(a, literal);
    KeptStep(literal, Code);
    assert literal[1..] == rest && literal[..1] == [Quote(mode)];
    LiteralTail(mode, lit, b);
  }
}
