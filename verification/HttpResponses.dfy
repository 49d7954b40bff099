/**
 * Two readers of HTTP/1.1 responses: the sample's whole-buffer parser with its splitter, and the soak client's reader
 * that pulls chunks from a connection until it has one response.
 */
module HttpResponses {
  import opened Options

  /** Number readers of the two languages: C's `atoi`, C++'s `stoull` (which throws) and Python's `int` (which raises). */
  datatype Library = Library(
    atoi: string -> int,
    stoull: string -> Option<nat>,
    parseInt: string -> Option<int>)

  const CRLF := "\r\n"
  const END_OF_HEAD := "\r\n\r\n"

  // ----- Text

  /** The first position of `part`, as `find`. */
  function Find(text: string, part: string): (found: Option<nat>)
    ensures found.Some? ==> found.value + |part| <= |text|
  {
    if |text| < |part| then None
    else if part <= text then Some(0)
    else if text == "" then None
    else
      var later := Find(text[1..], part);
      if later.Some? then Some(later.value + 1) else None
  }

  /** `text.split(CRLF)`. */
  function Lines(text: string): (lines: seq<string>)
    ensures lines != []
    decreases |text|
  {
    var end := Find(text, CRLF);
    if end.None? then [text] else [text[..end.value]] + Lines(text[end.value + 2..])
  }

  predicate IsSpace(c: char) {
    c == ' ' || ('\t' <= c <= '\r')
  }

  function Strip(text: string): string {
    if text == "" then ""
    else if IsSpace(text[0]) then Strip(text[1..])
    else if IsSpace(text[|text| - 1]) then Strip(text[..|text| - 1])
    else text
  }

  function DropBlanks(text: string): string {
    if text != "" && text[0] == ' ' then DropBlanks(text[1..]) else text
  }

  function LowerChar(c: char): char {
    if 'A' <= c <= 'Z' then c - 'A' + 'a' else c
  }

  function Lower(text: string): (lower: string)
    ensures |lower| == |text|
  {
    seq(|text|, i requires 0 <= i < |text| => LowerChar(text[i]))
  }

  const CONTENT_LENGTH := "content-length"

  // ----- The whole-buffer parser

  datatype Field = Field(name: string, value: string)

  /** A header line's field; a line without a colon has none. */
  function CppField(line: string): Option<Field> {
    var colon := Find(line, ":");
    if colon.None? then None else Some(Field(line[..colon.value], DropBlanks(line[colon.value + 1..])))
  }

  function CppFields(lines: seq<string>): seq<Field> {
    if lines == [] then []
    else
      var rest := CppFields(lines[1..]);
      if CppField(lines[0]).Some? then [CppField(lines[0]).value] + rest else rest
  }

  /** `headerOf`: the first field of that name, whatever its case; the empty string if there is none. */
  function HeaderOf(fields: seq<Field>, name: string): string {
    if fields == [] then "" else if Lower(fields[0].name) == name then fields[0].value else HeaderOf(fields[1..], name)
  }

  datatype CppResult = NoResponse | Throws | Parsed(status: int, body: string, consumed: nat)

  function CppParse(lib: Library, stream: string): (result: CppResult)
    ensures result.Parsed? ==> result.consumed > 0
  {
    var headEnd := Find(stream, END_OF_HEAD);
    if headEnd.None? then NoResponse
    else
      var head, body := stream[..headEnd.value], stream[headEnd.value + 4..];
      var space := Find(head, " ");
      if !("HTTP/" <= head) || space.None? then NoResponse
      else if space.value + 4 > |head| then Throws
      else
        var status := lib.atoi(head[space.value + 1..space.value + 4]);
        var lengthText := HeaderOf(CppFields(Lines(head)[1..]), CONTENT_LENGTH);
        if lengthText == "" then Parsed(status, body, |stream|)
        else if lib.stoull(lengthText).None? then Throws
        else
          var length := lib.stoull(lengthText).value;
          if |body| < length then Parsed(status, body, |stream|)
          else Parsed(status, body[..length], headEnd.value + 4 + length)
  }

  /** A parsed response: status and body. */
  datatype Response = Response(status: int, body: string)

  datatype Responses = Responses(parsed: seq<Response>, thrown: bool)

  function CppSplit(lib: Library, stream: string): Responses
    decreases |stream|
  {
    if stream == "" then Responses([], false)
    else
      match CppParse(lib, stream)
      case NoResponse => Responses([], false)
      case Throws => Responses([], true)
      case Parsed(status, body, consumed) =>
        var rest := CppSplit(lib, stream[if consumed < |stream| then consumed else |stream|..]);
        Responses([Response(status, body)] + rest.parsed, rest.thrown)
  }

  /** The lines of `head` from after the line break at `lineStart`; none without a break. */
  function LinesAfter(head: string, lineStart: Option<nat>): seq<string>
    requires lineStart.Some? ==> lineStart.value + 2 <= |head|
  {
    if lineStart.None? then [] else Lines(head[lineStart.value + 2..])
  }

  lemma LinesAfterStep(head: string, lineStart: nat, end: Option<nat>)
    requires lineStart + 2 <= |head| && end == Find(head[lineStart + 2..], CRLF)
    ensures
      var rest := head[lineStart + 2..];
      var next := if end.Some? then Some(lineStart + 2 + end.value) else None;
      LinesAfter(head, Some(lineStart)) == [if end.Some? then rest[..end.value] else rest] + LinesAfter(head, next)
  {
    hide Find;
    var rest := head[lineStart + 2..];
    if end.Some? {
      var behind := lineStart + 2 + end.value + 2;
      assert rest[end.value + 2..] == head[behind..];
      assert LinesAfter(head, Some(lineStart + 2 + end.value)) == Lines(head[behind..]);
    }
    assert LinesAfter(head, Some(lineStart)) == Lines(rest);
  }

  /** Taking one more header line. */
  lemma FieldsStep(fields: seq<Field>, line: string, colon: Option<nat>, later: seq<string>)
    requires colon == Find(line, ":")
    ensures
      fields + CppFields([line] + later) ==
      (if colon.Some? then fields + [Field(line[..colon.value], DropBlanks(line[colon.value + 1..]))] else fields)
      + CppFields(later)
  {
    assert ([line] + later)[1..] == later;
    if CppField(line).Some? {
      var field := CppField(line).value;
      assert fields + ([field] + CppFields(later)) == (fields + [field]) + CppFields(later);
    }
  }

  /** `fields` and those of the `pending` lines are all the fields of the head. */
  ghost predicate FieldsSoFar(head: string, fields: seq<Field>, pending: seq<string>) {
    fields + CppFields(pending) == CppFields(Lines(head)[1..])
  }

  lemma FieldsStart(head: string)
    ensures FieldsSoFar(head, [], LinesAfter(head, Find(head, CRLF)))
  {
    assert [] + CppFields(Lines(head)[1..]) == CppFields(Lines(head)[1..]);
  }

  lemma FieldsEnd(head: string, fields: seq<Field>, pending: seq<string>)
    requires FieldsSoFar(head, fields, pending) && (pending == [] || pending == [""])
    ensures fields == CppFields(Lines(head)[1..])
  {
    assert CppField("").None?;
    assert CppFields(pending) == [] && fields + [] == fields;
  }

  lemma NothingAfter(head: string, lineStart: Option<nat>)
    requires lineStart.Some? ==> lineStart.value + 2 == |head|
    ensures LinesAfter(head, lineStart) == [] || LinesAfter(head, lineStart) == [""]
  {
    assert Lines("") == [""];
  }

  method ParseFields(head: string) returns (fields: seq<Field>)
    ensures fields == CppFields(Lines(head)[1..])
  {
    hide Lines, CppFields, DropBlanks;
    fields := [];
    var lineStart := Find(head, CRLF);
    FieldsStart(head);
    ghost var pending := LinesAfter(head, lineStart);
    while lineStart.Some? && lineStart.value + 2 < |head|
      invariant lineStart.Some? ==> lineStart.value + 2 <= |head|
      invariant FieldsSoFar(head, fields, pending) && pending == LinesAfter(head, lineStart)
      decreases if lineStart.Some? then |head| - lineStart.value else 0
    {
      var rest := head[lineStart.value + 2..];
      var end := Find(rest, CRLF);
      var line := if end.Some? then rest[..end.value] else rest;
      var colon := Find(line, ":");
      LinesAfterStep(head, lineStart.value, end);
      hide Find, LinesAfter;
      pending := LinesAfter(head, if end.Some? then Some(lineStart.value + 2 + end.value) else None);
      FieldsStep(fields, line, colon, pending);
      if colon.Some? {
        fields := fields + [Field(line[..colon.value], DropBlanks(line[colon.value + 1..]))];
      }
      if end.None? {
        NothingAfter(head, None);
        break;
      }
      lineStart := Some(lineStart.value + 2 + end.value);
    }
    if lineStart.None? || lineStart.value + 2 == |head| {
      NothingAfter(head, lineStart);
    }
    FieldsEnd(head, fields, pending);
  }

  method SplitResponses(lib: Library, stream: string) returns (responses: seq<Response>, thrown: bool)
    ensures Responses(responses, thrown) == CppSplit(lib, stream)
  {
    responses, thrown := [], false;
    var remaining := stream;
    while remaining != ""
      invariant CppSplit(lib, stream) ==
                Responses(responses + CppSplit(lib, remaining).parsed, CppSplit(lib, remaining).thrown)
      decreases |remaining|
    {
      hide CppParse;
      match CppParse(lib, remaining)
      case NoResponse =>
        return;
      case Throws =>
        return responses, true;
      case Parsed(status, body, consumed) =>
        var next := remaining[if consumed < |remaining| then consumed else |remaining|..];
        ghost var later := CppSplit(lib, next).parsed;
        assert responses + ([Response(status, body)] + later) == (responses + [Response(status, body)]) + later;
        responses := responses + [Response(status, body)];
        remaining := next;
    }
  }

  // ----- The chunk reader

  /** The second piece of `line.split(b" ")`; without one the source raises. */
  function SecondToken(line: string): Option<string> {
    var space := Find(line, " ");
    if space.None? then None
    else
      var rest := line[space.value + 1..];
      var next := Find(rest, " ");
      Some(if next.Some? then rest[..next.value] else rest)
  }

  /** `line.partition(b":")` with the name stripped and lowered and the value stripped. */
  function PyField(line: string): Field {
    var colon := Find(line, ":");
    if colon.None? then Field(Lower(Strip(line)), "")
    else Field(Lower(Strip(line[..colon.value])), Strip(line[colon.value + 1..]))
  }

  /** The header dictionary: the last field of a name wins. */
  function PyHeaders(lines: seq<string>): map<string, string> {
    if lines == [] then map[]
    else
      var field := PyField(lines[|lines| - 1]);
      PyHeaders(lines[..|lines| - 1])[field.name := field.value]
  }

  /** The status and the announced length; `None` where the source raises. */
  function PyHead(lib: Library, head: string): Option<(int, int)> {
    var lines := Lines(head);
    var token := SecondToken(lines[0]);
    var headers := PyHeaders(lines[1..]);
    var lengthText := if CONTENT_LENGTH in headers then headers[CONTENT_LENGTH] else "0";
    if token.None? || lib.parseInt(token.value).None? || lib.parseInt(lengthText).None? then None
    else Some((lib.parseInt(token.value).value, lib.parseInt(lengthText).value))
  }

  /** What the octets of a connection hold: one response and the rest, less than one, or something that raises. */
  datatype PyResult =
    | Incomplete
    | Malformed
    | Negative(status: int, length: int)
    | Whole(response: Response, rest: string)

  function PyParse(lib: Library, data: string): PyResult {
    var headEnd := Find(data, END_OF_HEAD);
    if headEnd.None? then Incomplete
    else
      var body := data[headEnd.value + 4..];
      match PyHead(lib, data[..headEnd.value])
      case None => Malformed
      case Some((status, length)) =>
        if length < 0 then Negative(status, length)
        else if |body| < length then Incomplete
        else Whole(Response(status, body[..length]), body[length..])
  }

  function Flatten(chunks: seq<string>): string {
    if chunks == [] then "" else chunks[0] + Flatten(chunks[1..])
  }

  lemma {:induction false} FindExtends(a: string, b: string, part: string)
    requires Find(a, part).Some?
    ensures Find(a + b, part) == Find(a, part)
    decreases |a|
  {
    if part <= a {
      assert part <= a + b by { assert (a + b)[..|part|] == a[..|part|]; }
    } else {
      assert !(part <= a + b) by { assert |part| <= |a| && (a + b)[..|part|] == a[..|part|]; }
      assert (a + b)[1..] == a[1..] + b;
      FindExtends(a[1..], b, part);
    }
  }

  datatype Outcome = Closed | Raised | Got(response: Response)

  /** Python's `buffer[:length]`, negative lengths included. */
  function TakeSlice(buffer: string, length: int): string {
    if length >= |buffer| then buffer
    else if length >= 0 then buffer[..length]
    else if -length >= |buffer| then "" else buffer[..|buffer| + length]
  }

  /** Python's `buffer[length:]`. */
  function DropSlice(buffer: string, length: int): string {
    if length >= |buffer| then ""
    else if length >= 0 then buffer[length..]
    else if -length >= |buffer| then buffer else buffer[|buffer| + length..]
  }

  /** What is buffered and what is still to be received make up `data`. */
  predicate Holds(left: string, unread: seq<string>, data: string) {
    left + Flatten(unread) == data
  }

  lemma Receive(left: string, unread: seq<string>, data: string)
    requires Holds(left, unread, data)
    ensures unread == [] ==> left == data
    ensures unread != [] ==> Holds(left + unread[0], unread[1..], data)
  {
    if unread == [] {
      assert left + "" == left;
    } else {
      assert left + (unread[0] + Flatten(unread[1..])) == (left + unread[0]) + Flatten(unread[1..]);
    }
  }

  /** A head found in the buffer is the head of all the data. */
  lemma HeadArrived(left: string, unread: seq<string>, data: string)
    requires Holds(left, unread, data) && Find(left, END_OF_HEAD).Some?
    ensures
      var end := Find(left, END_OF_HEAD).value;
      Find(data, END_OF_HEAD) == Some(end) && data[..end] == left[..end]
      && Holds(left[end + 4..], unread, data[end + 4..])
  {
    FindExtends(left, Flatten(unread), END_OF_HEAD);
  }

  lemma BodyArrived(left: string, unread: seq<string>, body: string, length: int)
    requires Holds(left, unread, body) && 0 <= length <= |left|
    ensures length <= |body| && body[..length] == TakeSlice(left, length)
    ensures Holds(DropSlice(left, length), unread, body[length..])
  {}

  /** What is buffered, and what is still unread, once the head is complete or the peer has closed. */
  function Arrived(left: string, unread: seq<string>): (string, seq<string>)
    decreases |unread|
  {
    if Find(left, END_OF_HEAD).Some? || unread == [] then (left, unread) else Arrived(left + unread[0], unread[1..])
  }

  /** What of the body is buffered when the head is complete. */
  function EarlyBody(buffer: string, chunks: seq<string>): string {
    var got := Arrived(buffer, chunks).0;
    var end := Find(got, END_OF_HEAD);
    if end.None? then "" else got[end.value + 4..]
  }

  /**
   * Reads one response: `buffer` is what was left over, `chunks` what `recv` will still return before the peer closes.
   * What comes back depends only on the octets, not on how they are cut; a negative length is the exception, as it is
   * applied to whatever of the body is buffered with the head.
   */
  method ReadResponse(lib: Library, buffer: string, chunks: seq<string>) returns (outcome: Outcome, left: string, unread: seq<string>)
    ensures
      match PyParse(lib, buffer + Flatten(chunks))
      case Incomplete => outcome == Closed
      case Malformed => outcome == Raised
      case Negative(status, length) =>
        var early := EarlyBody(buffer, chunks);
        outcome == Got(Response(status, TakeSlice(early, length))) && left == DropSlice(early, length)
        && unread == Arrived(buffer, chunks).1
      case Whole(response, rest) => outcome == Got(response) && left + Flatten(unread) == rest
  {
    hide Find, PyHead, TakeSlice, DropSlice;
    ghost var data := buffer + Flatten(chunks);
    left, unread := buffer, chunks;
    while Find(left, END_OF_HEAD).None?
      invariant Holds(left, unread, data)
      invariant Arrived(left, unread) == Arrived(buffer, chunks)
      decreases |unread|
    {
      hide Holds;
      Receive(left, unread, data);
      if unread == [] {
        return Closed, left, unread;
      }
      left, unread := left + unread[0], unread[1..];
    }
    var headEnd := Find(left, END_OF_HEAD).value;
    HeadArrived(left, unread, data);
    var head := left[..headEnd];
    ghost var body := data[headEnd + 4..];
    left := left[headEnd + 4..];
    var parsed := PyHead(lib, head);
    if parsed.None? {
      return Raised, left, unread;
    }
    var (status, length) := parsed.value;
    while |left| < length
      invariant Holds(left, unread, body)
      invariant length < 0 ==> left == EarlyBody(buffer, chunks) && unread == Arrived(buffer, chunks).1
      decreases |unread|
    {
      hide Holds;
      Receive(left, unread, body);
      if unread == [] {
        return Closed, left, unread;
      }
      left, unread := left + unread[0], unread[1..];
    }
    if length >= 0 {
      BodyArrived(left, unread, body, length);
    }
    outcome := Got(Response(status, TakeSlice(left, length)));
    left := DropSlice(left, length);
  }

  lemma {:induction false} ArrivedHolds(left: string, unread: seq<string>, data: string)
    requires Holds(left, unread, data) && Find(data, END_OF_HEAD).Some?
    ensures
      var (got, more) := Arrived(left, unread);
      Holds(got, more, data) && Find(got, END_OF_HEAD) == Find(data, END_OF_HEAD)
    decreases |unread|
  {
    Receive(left, unread, data);
    if Find(left, END_OF_HEAD).Some? {
      FindExtends(left, Flatten(unread), END_OF_HEAD);
    } else {
      assert unread != [];
      ArrivedHolds(left + unread[0], unread[1..], data);
    }
  }

  lemma EarlyBodyIsPrefix(buffer: string, chunks: seq<string>, data: string, end: nat)
    requires Holds(buffer, chunks, data) && Find(data, END_OF_HEAD) == Some(end)
    ensures |EarlyBody(buffer, chunks)| <= |data| - end - 4
  {
    ArrivedHolds(buffer, chunks, data);
  }

  /** A chunk boundary right behind the head, and none at all. */
  lemma ExtremeCuts(data: string, end: nat)
    requires Find(data, END_OF_HEAD) == Some(end)
    ensures Holds(data, [], data) && EarlyBody(data, []) == data[end + 4..]
    ensures Holds("", [data[..end + 4], data[end + 4..]], data) && EarlyBody("", [data[..end + 4], data[end + 4..]]) == ""
  {
    var head, body := data[..end + 4], data[end + 4..];
    assert [head, body][1..] == [body] && [body][1..] == [];
    assert head + (body + "") == data && "" + head == head;
    EndsWithHead(data, end);
    assert Arrived(head, [body]) == (head, [body]);
  }

  lemma {:induction false} EndsWithHead(data: string, end: nat)
    requires Find(data, END_OF_HEAD) == Some(end)
    ensures Find(data[..end + 4], END_OF_HEAD) == Some(end)
    decreases |data|
  {
    var head := data[..end + 4];
    if end == 0 {
      assert END_OF_HEAD <= head;
    } else {
      assert head[1..] == data[1..][..end + 3];
      assert END_OF_HEAD <= head ==> END_OF_HEAD <= data by { assert head[..4] == data[..4]; }
      EndsWithHead(data[1..], end - 1);
    }
  }

  /**
   * For a negative length, every way of cutting the octets gives the same body exactly when the octets behind the head
   * are no more than the length takes off their end; otherwise the result depends on where the chunks happen to end.
   */
  lemma NegativeLengthRaces(data: string, end: nat, length: int)
    requires Find(data, END_OF_HEAD) == Some(end) && length < 0
    ensures
      (forall b, c, b', c' :: Holds(b, c, data) && Holds(b', c', data) ==>
         TakeSlice(EarlyBody(b, c), length) == TakeSlice(EarlyBody(b', c'), length))
      <==> |data| - end - 4 <= -length
  {
    hide Find, Arrived, EarlyBody, Holds;
    if |data| - end - 4 <= -length {
      forall b, c | Holds(b, c, data)
        ensures TakeSlice(EarlyBody(b, c), length) == ""
      {
        EarlyBodyIsPrefix(b, c, data, end);
      }
    } else {
      ExtremeCuts(data, end);
      assert TakeSlice(EarlyBody(data, []), length) != TakeSlice(EarlyBody("", [data[..end + 4], data[end + 4..]]), length);
    }
  }

  // ----- Well-formed responses

  predicate IsDecimal(text: string) {
    forall i :: 0 <= i < |text| ==> '0' <= text[i] <= '9'
  }

  type Decimal = text: string | IsDecimal(text)

  predicate Digits(text: string) {
    text != "" && IsDecimal(text)
  }

  function Value(text: Decimal): nat {
    if text == "" then 0 else 10 * Value(text[..|text| - 1]) + (text[|text| - 1] - '0') as int
  }

  /** The most digits Python's `int` converts unless it is told otherwise. */
  const MAX_DIGITS: nat := 4300

  /** What the readers of numbers make of decimals: `atoi` is given three digits, `stoull` needs a value below 2^64. */
  ghost predicate ReadsDecimals(lib: Library) {
    forall text :: ReadsDecimal(lib, text)
  }

  predicate ReadsDecimal(lib: Library, text: string) {
    Digits(text) && |text| <= MAX_DIGITS ==>
      && (|text| <= 3 ==> lib.atoi(text) == Value(text))
      && lib.parseInt(text) == Some(Value(text))
      && (Value(text) < 0x1_0000_0000_0000_0000 ==> lib.stoull(text) == Some(Value(text)))
  }

  /** A response as section 4 of RFC 9112 has it: status line, field lines, an empty line, a body of announced length. */
  datatype Reply = Reply(version: string, status: Decimal, reason: string, fields: seq<Field>, body: string)

  predicate NoBreak(text: string) {
    forall i :: 0 <= i < |text| ==> text[i] != '\r' && text[i] != '\n'
  }

  /** A field name: nothing in it that is white space or a colon. */
  predicate Token(text: string) {
    text != "" && forall i :: 0 <= i < |text| ==> !IsSpace(text[i]) && text[i] != ':'
  }

  predicate IsLength(f: Field) {
    Lower(f.name) == CONTENT_LENGTH
  }

  /** Three status digits, and nothing in the head that breaks a line or a field name. */
  predicate PlainHead(reply: Reply) {
    && "HTTP/" <= reply.version && NoBreak(reply.version) && ' ' !in reply.version
    && |reply.status| == 3
    && NoBreak(reply.reason)
    && forall i :: 0 <= i < |reply.fields| ==> Token(reply.fields[i].name) && NoBreak(reply.fields[i].value)
  }

  /** Exactly one content-length field, giving the body's length in digits. */
  predicate WellFormed(reply: Reply) {
    && PlainHead(reply)
    && |reply.body| < 0x1_0000_0000_0000_0000
    && exists k :: 0 <= k < |reply.fields| && OnlyLength(reply, k)
  }

  predicate OnlyLength(reply: Reply, k: nat)
    requires k < |reply.fields|
  {
    && IsLength(reply.fields[k])
    && Digits(reply.fields[k].value) && |reply.fields[k].value| <= MAX_DIGITS
    && Value(reply.fields[k].value) == |reply.body|
    && forall i :: 0 <= i < |reply.fields| && i != k ==> !IsLength(reply.fields[i])
  }

  function FieldLine(f: Field): string {
    f.name + ": " + f.value
  }

  function FieldLines(fields: seq<Field>): (lines: seq<string>)
    ensures |lines| == |fields|
  {
    seq(|fields|, i requires 0 <= i < |fields| => FieldLine(fields[i]))
  }

  function StatusLine(reply: Reply): string {
    reply.version + " " + reply.status + " " + reply.reason
  }

  function Join(lines: seq<string>): string
    requires lines != []
  {
    if |lines| == 1 then lines[0] else lines[0] + CRLF + Join(lines[1..])
  }

  function HeadLines(reply: Reply): seq<string> {
    [StatusLine(reply)] + FieldLines(reply.fields)
  }

  function Head(reply: Reply): string {
    Join(HeadLines(reply)) + END_OF_HEAD
  }

  function Render(reply: Reply): string {
    Head(reply) + reply.body
  }

  // ----- Finding the head and its lines

  /** Non-empty and without a line break. */
  predicate PlainLines(lines: seq<string>) {
    forall i :: 0 <= i < |lines| ==> lines[i] != "" && NoBreak(lines[i])
  }

  lemma {:induction false} FindSkips(line: string, rest: string, part: string)
    requires NoBreak(line) && part != "" && part[0] == '\r'
    ensures Find(line + rest, part) == if Find(rest, part).Some? then Some(|line| + Find(rest, part).value) else None
    decreases |line|
  {
    if line == "" {
      assert line + rest == rest;
    } else {
      var all := line + rest;
      assert all[1..] == line[1..] + rest;
      assert all[0] != part[0];
      FindSkips(line[1..], rest, part);
    }
  }

  lemma {:induction false} HeadFound(lines: seq<string>, rest: string)
    requires lines != [] && PlainLines(lines)
    ensures Find(Join(lines) + (END_OF_HEAD + rest), END_OF_HEAD) == Some(|Join(lines)|)
    decreases |lines|
  {
    var tail := END_OF_HEAD + rest;
    if |lines| == 1 {
      FindSkips(lines[0], tail, END_OF_HEAD);
    } else {
      var more := Join(lines[1..]) + tail;
      assert Join(lines) + tail == lines[0] + (CRLF + more);
      FindSkips(lines[0], CRLF + more, END_OF_HEAD);
      HeadFound(lines[1..], rest);
      assert more[0] == lines[1][0] by { assert lines[1..][0] == lines[1]; }
      BreakIsNoEnd(more);
    }
  }

  /** A line break followed by something else does not end the head. */
  lemma BreakIsNoEnd(more: string)
    requires more != "" && more[0] != '\r' && Find(more, END_OF_HEAD).Some?
    ensures Find(CRLF + more, END_OF_HEAD) == Some(2 + Find(more, END_OF_HEAD).value)
  {
    assert CRLF + more == ['\r'] + (['\n'] + more);
    FindLater('\n', more);
    FindLater('\r', ['\n'] + more);
  }

  /** A character in front that cannot start the end of a head moves it by one. */
  lemma FindLater(c: char, more: string)
    requires more != "" && Find(more, END_OF_HEAD).Some?
    requires c != '\r' || more[0] != '\n' || (|more| > 1 && more[1] != '\r')
    ensures Find([c] + more, END_OF_HEAD) == Some(1 + Find(more, END_OF_HEAD).value)
  {
    hide Find;
    var text := [c] + more;
    if c != '\r' {
      Differs(text, END_OF_HEAD, 0);
    } else if more[0] != '\n' {
      Differs(text, END_OF_HEAD, 1);
    } else {
      Differs(text, END_OF_HEAD, 2);
    }
    FindTail(c, more, END_OF_HEAD);
  }

  lemma Differs(text: string, part: string, i: nat)
    requires i < |text| && i < |part| && text[i] != part[i]
    ensures !(part <= text)
  {}

  lemma FindTail(c: char, more: string, part: string)
    requires !(part <= [c] + more) && Find(more, part).Some?
    ensures Find([c] + more, part) == Some(1 + Find(more, part).value)
  {
    assert ([c] + more)[1..] == more;
  }

  lemma {:induction false} LinesOfJoin(lines: seq<string>)
    requires lines != [] && PlainLines(lines)
    ensures Lines(Join(lines)) == lines
    decreases |lines|
  {
    if |lines| == 1 {
      FindSkips(lines[0], "", CRLF);
      assert lines[0] + "" == lines[0];
    } else {
      var more := Join(lines[1..]);
      var text := lines[0] + (CRLF + more);
      assert Join(lines) == text;
      FindSkips(lines[0], CRLF + more, CRLF);
      assert CRLF <= CRLF + more;
      assert Find(text, CRLF) == Some(|lines[0]|);
      assert text[..|lines[0]|] == lines[0] && text[|lines[0]| + 2..] == more;
      LinesOfJoin(lines[1..]);
    }
  }

  lemma RenderedLinesPlain(reply: Reply)
    requires PlainHead(reply)
    ensures PlainLines(HeadLines(reply))
  {
    var lines := HeadLines(reply);
    forall i | 0 <= i < |lines|
      ensures lines[i] != "" && NoBreak(lines[i])
    {
      if i > 0 {
        var f := reply.fields[i - 1];
        assert lines[i] == FieldLine(f);
        assert NoBreak(f.name) && f.name != "";
      }
    }
  }

  lemma {:induction false} FindChar(before: string, rest: string, part: string)
    requires |part| == 1 && part[0] !in before && part <= rest
    ensures Find(before + rest, part) == Some(|before|)
    decreases |before|
  {
    if before == "" {
      assert before + rest == rest;
    } else {
      var all := before + rest;
      assert all[1..] == before[1..] + rest && all[0] != part[0];
      FindChar(before[1..], rest, part);
    }
  }

  lemma FieldLineColon(f: Field)
    requires Token(f.name)
    ensures
      var line := FieldLine(f);
      Find(line, ":") == Some(|f.name|) && line[..|f.name|] == f.name && line[|f.name| + 1..] == " " + f.value
  {
    var rest := ": " + f.value;
    assert FieldLine(f) == f.name + rest;
    assert ":" <= rest;
    FindChar(f.name, rest, ":");
  }

  // ----- Both readers on a well-formed head

  lemma DigitsKept(text: string)
    requires Digits(text)
    ensures DropBlanks(text) == text && Strip(text) == text
  {}

  lemma TokenKept(text: string)
    requires Token(text)
    ensures Strip(text) == text
  {}

  /** The first content-length value, without leading blanks; empty if there is none. */
  function FirstLength(fields: seq<Field>): string {
    if fields == [] then ""
    else if IsLength(fields[0]) then DropBlanks(fields[0].value)
    else FirstLength(fields[1..])
  }

  /** The last content-length value, without white space around it; "0" if there is none. */
  function LastLength(fields: seq<Field>): string {
    if fields == [] then "0"
    else if IsLength(fields[|fields| - 1]) then Strip(fields[|fields| - 1].value)
    else LastLength(fields[..|fields| - 1])
  }

  predicate Tokens(fields: seq<Field>) {
    forall i :: 0 <= i < |fields| ==> Token(fields[i].name)
  }

  lemma BlankBefore(text: string)
    ensures DropBlanks(" " + text) == DropBlanks(text) && Strip(" " + text) == Strip(text)
  {
    assert (" " + text)[1..] == text;
  }

  /** The whole-buffer parser goes by the first length. */
  lemma {:induction false} CppLength(fields: seq<Field>)
    requires Tokens(fields)
    ensures HeaderOf(CppFields(FieldLines(fields)), CONTENT_LENGTH) == FirstLength(fields)
    decreases |fields|
  {
    hide Find, Token, DropBlanks;
    if fields != [] {
      assert FieldLines(fields)[1..] == FieldLines(fields[1..]);
      FieldLineColon(fields[0]);
      BlankBefore(fields[0].value);
      CppLength(fields[1..]);
    }
  }

  /** The chunk reader goes by the last. */
  lemma {:induction false} PyLength(fields: seq<Field>)
    requires Tokens(fields)
    ensures
      var headers := PyHeaders(FieldLines(fields));
      (if CONTENT_LENGTH in headers then headers[CONTENT_LENGTH] else "0") == LastLength(fields)
    decreases |fields|
  {
    hide Find, Token, Strip;
    if fields != [] {
      var n := |fields| - 1;
      assert FieldLines(fields)[..n] == FieldLines(fields[..n]);
      FieldLineColon(fields[n]);
      TokenKept(fields[n].name);
      BlankBefore(fields[n].value);
      PyLength(fields[..n]);
    }
  }

  lemma {:induction false} OnlyFirst(fields: seq<Field>, k: nat)
    requires k < |fields| && IsLength(fields[k]) && Digits(fields[k].value)
    requires forall i :: 0 <= i < |fields| && i != k ==> !IsLength(fields[i])
    ensures FirstLength(fields) == fields[k].value
    decreases |fields|
  {
    hide Digits;
    DigitsKept(fields[k].value);
    if k > 0 {
      OnlyFirst(fields[1..], k - 1);
    }
  }

  lemma {:induction false} OnlyLast(fields: seq<Field>, k: nat)
    requires k < |fields| && IsLength(fields[k]) && Digits(fields[k].value)
    requires forall i :: 0 <= i < |fields| && i != k ==> !IsLength(fields[i])
    ensures LastLength(fields) == fields[k].value
    decreases |fields|
  {
    hide Digits;
    DigitsKept(fields[k].value);
    var n := |fields| - 1;
    if k < n {
      OnlyLast(fields[..n], k);
    }
  }

  lemma HeadShape(reply: Reply)
    requires PlainHead(reply)
    ensures
      var head := Join(HeadLines(reply));
      var n := |reply.version|;
      "HTTP/" <= head && Find(head, " ") == Some(n) && n + 4 <= |head| && head[n + 1..n + 4] == reply.status
  {
    var head := Join(HeadLines(reply));
    var line := StatusLine(reply);
    assert line <= head;
    var rest := head[|reply.version|..];
    assert head == reply.version + rest;
    assert line == reply.version + (" " + reply.status + " " + reply.reason);
    assert rest[..5 + |reply.reason|] == " " + reply.status + " " + reply.reason;
    assert " " <= rest;
    FindChar(reply.version, rest, " ");
    assert head[..5] == reply.version[..5];
    assert head[|reply.version| + 1..|reply.version| + 4] == rest[1..4] == reply.status;
  }

  lemma StatusToken(reply: Reply)
    requires PlainHead(reply)
    ensures SecondToken(StatusLine(reply)) == Some(reply.status)
  {
    var rest := " " + reply.status + " " + reply.reason;
    assert StatusLine(reply) == reply.version + rest;
    assert " " <= rest;
    FindChar(reply.version, rest, " ");
    var more := " " + reply.reason;
    assert rest[1..] == reply.status + more;
    assert " " <= more;
    FindChar(reply.status, more, " ");
    assert StatusLine(reply)[|reply.version| + 1..] == rest[1..];
    assert rest[1..][..3] == reply.status;
  }

  function AsResponse(reply: Reply): Response {
    Response(Value(reply.status), reply.body)
  }

  /** Where a rendered head ends and what its lines are, whatever follows it. */
  lemma HeadSplits(reply: Reply, after: string)
    requires PlainHead(reply)
    ensures
      var stream, head := Head(reply) + after, Join(HeadLines(reply));
      Find(stream, END_OF_HEAD) == Some(|head|) && stream[..|head|] == head && stream[|head| + 4..] == after
      && Lines(head)[1..] == FieldLines(reply.fields) && Lines(head)[0] == StatusLine(reply)
  {
    hide Find;
    var head := Join(HeadLines(reply));
    RenderedLinesPlain(reply);
    HeadFound(HeadLines(reply), after);
    assert Head(reply) + after == head + (END_OF_HEAD + after);
    LinesOfJoin(HeadLines(reply));
  }

  // ----- Both readers on any plain head

  /** How much of `available` octets a length takes. */
  function Taken(lib: Library, text: string, available: nat): Option<nat> {
    if text == "" then Some(available)
    else if lib.stoull(text).None? then None
    else Some(if lib.stoull(text).value < available then lib.stoull(text).value else available)
  }

  /** How much of what follows a head the whole-buffer parser takes; `None` where it throws. */
  function CppTaken(lib: Library, fields: seq<Field>, available: nat): Option<nat> {
    Taken(lib, FirstLength(fields), available)
  }

  /** How much the chunk reader takes; `None` where it raises, waits for more, or cuts from the wrong end. */
  function PyTaken(lib: Library, fields: seq<Field>, available: nat): Option<nat> {
    var length := lib.parseInt(LastLength(fields));
    if length.None? || length.value < 0 || length.value > available then None else Some(length.value)
  }

  lemma PlainTokens(reply: Reply)
    requires PlainHead(reply)
    ensures Tokens(reply.fields)
  {}

  lemma StatusRead(lib: Library, reply: Reply)
    requires ReadsDecimals(lib) && PlainHead(reply)
    ensures lib.atoi(reply.status) == Value(reply.status) && lib.parseInt(reply.status) == Some(Value(reply.status))
  {
    hide Value;
    assert Digits(reply.status) && ReadsDecimal(lib, reply.status);
  }

  /** The parser once the parts of the stream are known. */
  lemma CppParseParts(lib: Library, stream: string, end: nat, space: nat)
    requires Find(stream, END_OF_HEAD) == Some(end)
    requires "HTTP/" <= stream[..end] && Find(stream[..end], " ") == Some(space) && space + 4 <= end
    ensures
      var head, after := stream[..end], stream[end + 4..];
      var n := Taken(lib, HeaderOf(CppFields(Lines(head)[1..]), CONTENT_LENGTH), |after|);
      CppParse(lib, stream) ==
      if n.None? then Throws else Parsed(lib.atoi(head[space + 1..space + 4]), after[..n.value], end + 4 + n.value)
  {
    hide Find, Lines, CppFields, HeaderOf;
    var after := stream[end + 4..];
    assert after[..|after|] == after;
  }

  /** The whole-buffer parser on any plain head. */
  lemma CppParsesAny(lib: Library, reply: Reply, after: string)
    requires ReadsDecimals(lib) && PlainHead(reply)
    ensures
      var n := CppTaken(lib, reply.fields, |after|);
      CppParse(lib, Head(reply) + after) ==
      if n.None? then Throws else Parsed(Value(reply.status), after[..n.value], |Head(reply)| + n.value)
  {
    hide *;
    var stream, end, space := Head(reply) + after, HeadEnd(reply), |reply.version|;
    StatusRead(lib, reply);
    HeadParts(reply, after);
    CppFirstLength(reply);
    CppParseParts(lib, stream, end, space);
    CppTakenIs(lib, reply.fields, |after|);
  }

  lemma CppTakenIs(lib: Library, fields: seq<Field>, available: nat)
    ensures CppTaken(lib, fields, available) == Taken(lib, FirstLength(fields), available)
  {}

  lemma CppFirstLength(reply: Reply)
    requires PlainHead(reply)
    ensures HeaderOf(CppFields(FieldLines(reply.fields)), CONTENT_LENGTH) == FirstLength(reply.fields)
  {
    PlainTokens(reply);
    CppLength(reply.fields);
  }

  function HeadEnd(reply: Reply): nat {
    |Join(HeadLines(reply))|
  }

  /** The parts of a stream that starts with a plain head. */
  lemma HeadParts(reply: Reply, after: string)
    requires PlainHead(reply)
    ensures
      var stream, end, space := Head(reply) + after, HeadEnd(reply), |reply.version|;
      Find(stream, END_OF_HEAD) == Some(end) && stream[end + 4..] == after && |Head(reply)| == end + 4
      && "HTTP/" <= stream[..end] && Find(stream[..end], " ") == Some(space) && space + 4 <= end
      && stream[..end][space + 1..space + 4] == reply.status
      && Lines(stream[..end])[1..] == FieldLines(reply.fields)
  {
    hide Find, Lines, FieldLines, PlainHead, Join;
    HeadSplits(reply, after);
    HeadShape(reply);
  }

  /** The chunk reader on any plain head. */
  lemma PyParsesAny(lib: Library, reply: Reply, after: string)
    requires ReadsDecimals(lib) && PlainHead(reply)
    ensures
      var length := lib.parseInt(LastLength(reply.fields));
      PyParse(lib, Head(reply) + after) ==
      if length.None? then Malformed
      else if length.value < 0 then Negative(Value(reply.status), length.value)
      else if |after| < length.value then Incomplete
      else Whole(Response(Value(reply.status), after[..length.value]), after[length.value..])
  {
    hide *;
    var stream, end := Head(reply) + after, HeadEnd(reply);
    StatusRead(lib, reply);
    HeadParts(reply, after);
    HeadLine(reply, after);
    PyLastLength(reply);
    PyParseParts(lib, stream, end);
  }

  /** The reader once the parts of the stream are known. */
  lemma PyParseParts(lib: Library, stream: string, end: nat)
    requires Find(stream, END_OF_HEAD) == Some(end)
    requires
      var token := SecondToken(Lines(stream[..end])[0]);
      token.Some? && lib.parseInt(token.value).Some?
    ensures
      var lines, after := Lines(stream[..end]), stream[end + 4..];
      var headers := PyHeaders(lines[1..]);
      var status := lib.parseInt(SecondToken(lines[0]).value).value;
      var length := lib.parseInt(if CONTENT_LENGTH in headers then headers[CONTENT_LENGTH] else "0");
      PyParse(lib, stream) ==
      if length.None? then Malformed
      else if length.value < 0 then Negative(status, length.value)
      else if |after| < length.value then Incomplete
      else Whole(Response(status, after[..length.value]), after[length.value..])
  {
    hide Find, Lines, SecondToken, PyHeaders;
  }

  lemma HeadLine(reply: Reply, after: string)
    requires PlainHead(reply)
    ensures
      var lines := Lines((Head(reply) + after)[..HeadEnd(reply)]);
      SecondToken(lines[0]) == Some(reply.status)
  {
    hide Find, Lines, FieldLines, PlainHead, Join, SecondToken;
    HeadSplits(reply, after);
    StatusToken(reply);
  }

  lemma PyLastLength(reply: Reply)
    requires PlainHead(reply)
    ensures
      var headers := PyHeaders(FieldLines(reply.fields));
      (if CONTENT_LENGTH in headers then headers[CONTENT_LENGTH] else "0") == LastLength(reply.fields)
  {
    PlainTokens(reply);
    PyLength(reply.fields);
  }

  /** Both readers see the same response and leave the same rest. */
  predicate Agree(lib: Library, stream: string) {
    var parsed := CppParse(lib, stream);
    parsed.Parsed? && parsed.consumed <= |stream|
    && PyParse(lib, stream) == Whole(Response(parsed.status, parsed.body), stream[parsed.consumed..])
  }

  /**
   * Whatever the fields of a head say about its length, once, several times or not at all: the readers agree exactly
   * when the first length and the last take the same number of octets from what there is.
   */
  lemma AgreeIff(lib: Library, reply: Reply, after: string)
    requires ReadsDecimals(lib) && PlainHead(reply)
    ensures Agree(lib, Head(reply) + after) <==>
            CppTaken(lib, reply.fields, |after|).Some?
            && PyTaken(lib, reply.fields, |after|) == CppTaken(lib, reply.fields, |after|)
  {
    hide CppParse, PyParse, ReadsDecimals, PlainHead, Head, FirstLength, LastLength;
    CppParsesAny(lib, reply, after);
    PyParsesAny(lib, reply, after);
    var n := CppTaken(lib, reply.fields, |after|);
    if n.Some? {
      assert (Head(reply) + after)[|Head(reply)| + n.value..] == after[n.value..];
    }
  }

  /** Without a length they agree on an empty rest only: one takes everything there is, the other nothing. */
  lemma NoLengthAgreeIff(lib: Library, reply: Reply, after: string)
    requires ReadsDecimals(lib) && PlainHead(reply)
    requires forall i :: 0 <= i < |reply.fields| ==> !IsLength(reply.fields[i])
    ensures Agree(lib, Head(reply) + after) <==> after == ""
  {
    hide CppParse, PyParse, PlainHead, Head, Agree;
    NoLengths(reply.fields);
    AgreeIff(lib, reply, after);
    assert Digits("0") && Value("0") == 0 by { assert "0"[..0] == ""; }
    assert ReadsDecimal(lib, "0");
  }

  lemma {:induction false} NoLengths(fields: seq<Field>)
    requires forall i :: 0 <= i < |fields| ==> !IsLength(fields[i])
    ensures FirstLength(fields) == "" && LastLength(fields) == "0"
    decreases |fields|
  {
    hide IsLength;
    if fields != [] {
      NoLengths(fields[1..]);
      NoLengths(fields[..|fields| - 1]);
    }
  }

  /** With one length in digits the whole-buffer parser takes the announced body, or whatever there is of it. */
  lemma CppParsesHead(lib: Library, reply: Reply, after: string)
    requires ReadsDecimals(lib) && WellFormed(reply)
    ensures
      var n := if |after| < |reply.body| then |after| else |reply.body|;
      CppParse(lib, Head(reply) + after) == Parsed(Value(reply.status), after[..n], |Head(reply)| + n)
  {
    hide CppParse, PlainHead, Head, FirstLength;
    CppParsesAny(lib, reply, after);
    var k :| 0 <= k < |reply.fields| && OnlyLength(reply, k);
    OnlyFirst(reply.fields, k);
    assert ReadsDecimal(lib, reply.fields[k].value);
  }

  /** The chunk reader takes the announced body or asks for more. */
  lemma PyParsesHead(lib: Library, reply: Reply, after: string)
    requires ReadsDecimals(lib) && WellFormed(reply)
    ensures
      PyParse(lib, Head(reply) + after) ==
      if |after| < |reply.body| then Incomplete
      else Whole(Response(Value(reply.status), after[..|reply.body|]), after[|reply.body|..])
  {
    hide PyParse, PlainHead, Head, LastLength;
    PyParsesAny(lib, reply, after);
    var k :| 0 <= k < |reply.fields| && OnlyLength(reply, k);
    OnlyLast(reply.fields, k);
    assert ReadsDecimal(lib, reply.fields[k].value);
  }

  /** Both take exactly one rendered response off a stream. */
  lemma BothParseRendered(lib: Library, reply: Reply, rest: string)
    requires ReadsDecimals(lib) && WellFormed(reply)
    ensures CppParse(lib, Render(reply) + rest) == Parsed(Value(reply.status), reply.body, |Render(reply)|)
    ensures PyParse(lib, Render(reply) + rest) == Whole(AsResponse(reply), rest)
  {
    hide CppParse, PyParse, ReadsDecimals, WellFormed, HeadLines, Join;
    var after := reply.body + rest;
    assert Render(reply) + rest == Head(reply) + after;
    CppParsesHead(lib, reply, after);
    PyParsesHead(lib, reply, after);
    assert after[..|reply.body|] == reply.body && after[|reply.body|..] == rest;
  }

  /** A head that is not complete is no response to either reader. */
  lemma PartialHead(lib: Library, reply: Reply, cut: nat)
    requires WellFormed(reply) && cut < |Head(reply)|
    ensures CppSplit(lib, Render(reply)[..cut]) == Responses([], false)
    ensures PyParse(lib, Render(reply)[..cut]) == Incomplete
  {
    assert PlainHead(reply);
    hide WellFormed, PlainHead;
    var part := Render(reply)[..cut];
    HeadSplits(reply, reply.body);
    if Find(part, END_OF_HEAD).Some? {
      assert part + Render(reply)[cut..] == Render(reply);
      FindExtends(part, Render(reply)[cut..], END_OF_HEAD);
      assert false;
    }
  }

  // ----- Whole streams

  ghost predicate AllWellFormed(replies: seq<Reply>) {
    forall i :: 0 <= i < |replies| ==> WellFormed(replies[i])
  }

  function RenderAll(replies: seq<Reply>): string {
    if replies == [] then "" else Render(replies[0]) + RenderAll(replies[1..])
  }

  function Expected(replies: seq<Reply>): (responses: seq<Response>)
    ensures |responses| == |replies|
  {
    if replies == [] then [] else [AsResponse(replies[0])] + Expected(replies[1..])
  }

  /** Splitting a stream gives every complete response in order, whatever follows them. */
  lemma {:induction false} SplitRecovers(lib: Library, replies: seq<Reply>, tail: string)
    requires ReadsDecimals(lib) && AllWellFormed(replies)
    ensures CppSplit(lib, RenderAll(replies) + tail) ==
            Responses(Expected(replies) + CppSplit(lib, tail).parsed, CppSplit(lib, tail).thrown)
    decreases |replies|
  {
    hide CppSplit, WellFormed, ReadsDecimals, Render, AsResponse;
    if replies == [] {
      assert RenderAll(replies) + tail == tail;
      assert Expected(replies) + CppSplit(lib, tail).parsed == CppSplit(lib, tail).parsed;
    } else {
      var more := RenderAll(replies[1..]) + tail;
      assert RenderAll(replies) + tail == Render(replies[0]) + more;
      SplitOne(lib, replies[0], more);
      SplitRecovers(lib, replies[1..], tail);
      Regroup([AsResponse(replies[0])], Expected(replies[1..]), CppSplit(lib, tail).parsed);
    }
  }

  lemma Regroup(a: seq<Response>, b: seq<Response>, c: seq<Response>)
    ensures a + (b + c) == (a + b) + c
  {}

  lemma SplitOne(lib: Library, reply: Reply, more: string)
    requires ReadsDecimals(lib) && WellFormed(reply)
    ensures CppSplit(lib, Render(reply) + more) ==
            Responses([AsResponse(reply)] + CppSplit(lib, more).parsed, CppSplit(lib, more).thrown)
  {
    hide CppParse, ReadsDecimals;
    var first := Render(reply);
    BothParseRendered(lib, reply, more);
    assert |first| >= 4;
    assert (first + more)[|first|..] == more && first + more != "";
  }

  /** What the splitter shows of a response cut short: nothing before its head is complete, then the body so far. */
  function Shown(last: Reply, cut: nat): seq<Response>
    requires cut <= |Render(last)|
  {
    if cut < |Head(last)| then [] else [Response(Value(last.status), last.body[..cut - |Head(last)|])]
  }

  lemma CutResponse(lib: Library, last: Reply, cut: nat)
    requires ReadsDecimals(lib) && WellFormed(last) && cut <= |Render(last)|
    ensures CppSplit(lib, Render(last)[..cut]) == Responses(Shown(last, cut), false)
    ensures cut < |Render(last)| <==> PyParse(lib, Render(last)[..cut]) == Incomplete
  {
    hide ReadsDecimals, WellFormed, PyParse, CppParse, Head;
    var part := Render(last)[..cut];
    if cut < |Head(last)| {
      hide CppSplit;
      PartialHead(lib, last, cut);
    } else {
      var n := cut - |Head(last)|;
      var after := last.body[..n];
      assert part == Head(last) + after;
      CppParsesHead(lib, last, after);
      PyParsesHead(lib, last, after);
      assert after[..n] == after;
      HeadIsLong(last);
      assert part[cut..] == "";
    }
  }

  /**
   * Cutting the last response short leaves the earlier ones as they were. The splitter then shows of the cut one what
   * `Shown` says; the chunk reader takes it only when it is whole.
   */
  lemma TruncationKeepsEarlier(lib: Library, replies: seq<Reply>, last: Reply, cut: nat)
    requires ReadsDecimals(lib) && AllWellFormed(replies) && WellFormed(last) && cut <= |Render(last)|
    ensures
      CppSplit(lib, RenderAll(replies) + Render(last)[..cut]) ==
      Responses(Expected(replies) + Shown(last, cut), false)
    ensures cut < |Render(last)| <==> PyParse(lib, Render(last)[..cut]) == Incomplete
  {
    hide CppSplit, ReadsDecimals, WellFormed, PyParse, Render;
    SplitRecovers(lib, replies, Render(last)[..cut]);
    CutResponse(lib, last, cut);
  }

  lemma HeadIsLong(reply: Reply)
    ensures |Head(reply)| >= 4
  {}

  /** What is buffered and unread are the remaining responses and the tail. */
  ghost predicate Remaining(left: string, unread: seq<string>, todo: seq<Reply>, tail: string) {
    left + Flatten(unread) == RenderAll(todo) + tail
  }

  lemma NextRemaining(lib: Library, left: string, unread: seq<string>, todo: seq<Reply>, tail: string)
    requires ReadsDecimals(lib) && AllWellFormed(todo) && todo != []
    requires Remaining(left, unread, todo, tail)
    ensures PyParse(lib, left + Flatten(unread)) == Whole(AsResponse(todo[0]), RenderAll(todo[1..]) + tail)
  {
    hide PyParse, CppParse, ReadsDecimals, WellFormed, Render;
    var more := RenderAll(todo[1..]) + tail;
    assert RenderAll(todo) + tail == Render(todo[0]) + more;
    BothParseRendered(lib, todo[0], more);
  }

  /** What was read so far and what is still expected. */
  ghost predicate ReadSoFar(replies: seq<Reply>, responses: seq<Response>, todo: seq<Reply>) {
    Expected(replies) == responses + Expected(todo)
  }

  lemma ReadNext(replies: seq<Reply>, responses: seq<Response>, todo: seq<Reply>)
    requires todo != [] && ReadSoFar(replies, responses, todo)
    ensures ReadSoFar(replies, responses + [AsResponse(todo[0])], todo[1..])
  {
    var one, later := [AsResponse(todo[0])], Expected(todo[1..]);
    assert responses + (one + later) == (responses + one) + later;
  }

  /**
   * Reading a stream response by response, however it is cut into chunks, gives what splitting it whole gives.
   * `tail` is whatever follows the complete responses; it stays unread.
   */
  method ReadResponses(lib: Library, chunks: seq<string>, count: nat, ghost replies: seq<Reply>, ghost tail: string)
    returns (responses: seq<Response>, left: string, unread: seq<string>)
    requires ReadsDecimals(lib) && AllWellFormed(replies) && count == |replies|
    requires Flatten(chunks) == RenderAll(replies) + tail
    ensures responses == Expected(replies) == CppSplit(lib, RenderAll(replies)).parsed
    ensures left + Flatten(unread) == tail
  {
    hide WellFormed, ReadsDecimals, PyParse, CppSplit, Expected;
    responses, left, unread := [], "", chunks;
    ghost var todo := replies;
    SplitAlone(lib, replies);
    assert "" + Flatten(chunks) == Flatten(chunks);
    assert [] + Expected(replies) == Expected(replies);
    for i := 0 to count
      invariant |todo| == count - i && AllWellFormed(todo)
      invariant Remaining(left, unread, todo, tail)
      invariant ReadSoFar(replies, responses, todo)
    {
      NextRemaining(lib, left, unread, todo, tail);
      ReadNext(replies, responses, todo);
      hide Remaining, ReadSoFar, AsResponse, Flatten;
      var outcome: Outcome;
      ghost var was := todo[0];
      outcome, left, unread := ReadResponse(lib, left, unread);
      assert outcome == Got(AsResponse(was));
      responses := responses + [outcome.response];
      todo := todo[1..];
      assert Remaining(left, unread, todo, tail) by { IsRemaining(left, unread, todo, tail); }
    }
    assert RenderAll(todo) + tail == tail;
    assert responses + [] == responses;
    assert Expected(todo) == [];
  }

  lemma IsRemaining(left: string, unread: seq<string>, todo: seq<Reply>, tail: string)
    requires left + Flatten(unread) == RenderAll(todo) + tail
    ensures Remaining(left, unread, todo, tail)
  {}

  lemma SplitAlone(lib: Library, replies: seq<Reply>)
    requires ReadsDecimals(lib) && AllWellFormed(replies)
    ensures CppSplit(lib, RenderAll(replies)).parsed == Expected(replies)
  {
    SplitRecovers(lib, replies, "");
    assert RenderAll(replies) + "" == RenderAll(replies);
    assert CppSplit(lib, "").parsed == [];
  }
}
