/** What the client's frame reader knows, as values: the counters `_parse` keeps and the window credit it owes. */
module ReaderState {
  import opened Options
  import opened Bytes
  import opened Frames

  /** `WINDOW_UPDATE_THRESHOLD_BYTES`: smaller credit is kept back. */
  const THRESHOLD: nat := 4096
  /** The most octets one `recv` returns. */
  const READ_LIMIT: nat := 65536
  /** The HPACK static-table index of ":status 200". */
  const STATUS_200: Byte := 0x88

  datatype Tally = Tally(
    framesSeen: nat,
    goaways: nat,
    resets: nat,
    statusOk: map<nat, bool>,
    endStream: set<nat>,
    dataLength: map<nat, nat>,
    dataFrames: map<nat, nat>)

  datatype Credit = Credit(byStream: map<nat, nat>, connection: nat)

  function Get(m: map<nat, nat>, key: nat): nat {
    if key in m then m[key] else 0
  }

  /** END_STREAM is bit 0 and means something on DATA and HEADERS only (section 6.1 of RFC 9113). */
  predicate EndsStream(f: Frame) {
    f.streamId != 0 && f.kind in {DATA, HEADERS} && f.flags % 2 == 1
  }

  function Note(t: Tally, f: Frame): Tally {
    var seen := t.(framesSeen := t.framesSeen + 1);
    var counted :=
      if f.kind == GOAWAY then seen.(goaways := seen.goaways + 1)
      else if f.kind == RST_STREAM then seen.(resets := seen.resets + 1)
      else if f.kind == HEADERS then seen.(statusOk := seen.statusOk[f.streamId := STATUS_200 in f.payload])
      else if f.kind == DATA then
        seen.(dataLength := seen.dataLength[f.streamId := Get(seen.dataLength, f.streamId) + |f.payload|],
              dataFrames := seen.dataFrames[f.streamId := Get(seen.dataFrames, f.streamId) + 1])
      else seen;
    if EndsStream(f) then counted.(endStream := counted.endStream + {f.streamId}) else counted
  }

  function Charge(c: Credit, f: Frame): Credit {
    if f.kind == DATA && f.payload != [] then
      Credit(c.byStream[f.streamId := Get(c.byStream, f.streamId) + |f.payload|], c.connection + |f.payload|)
    else c
  }

  function NoteAll(t: Tally, frames: seq<Frame>): Tally {
    if frames == [] then t else Note(NoteAll(t, frames[..|frames| - 1]), frames[|frames| - 1])
  }

  function ChargeAll(c: Credit, frames: seq<Frame>): Credit {
    if frames == [] then c else Charge(ChargeAll(c, frames[..|frames| - 1]), frames[|frames| - 1])
  }

  lemma {:induction false} NoteAllAppend(t: Tally, a: seq<Frame>, b: seq<Frame>)
    ensures NoteAll(t, a + b) == NoteAll(NoteAll(t, a), b)
  {
    hide Note;
    if b == [] {
      assert a + b == a;
    } else {
      var front := b[..|b| - 1];
      NoteAllAppend(t, a, front);
      assert (a + b)[..|a + b| - 1] == a + front;
    }
  }

  // ----- What the counters mean, read off the list of frames

  function DataOn(frames: seq<Frame>, id: nat): nat {
    if frames == [] then 0
    else DataOn(frames[..|frames| - 1], id) + DataOctets(frames[|frames| - 1], id)
  }

  function DataOctets(f: Frame, id: nat): nat {
    if f.kind == DATA && f.streamId == id then |f.payload| else 0
  }

  function DataTotal(frames: seq<Frame>): nat {
    if frames == [] then 0
    else DataTotal(frames[..|frames| - 1]) + if frames[|frames| - 1].kind == DATA then |frames[|frames| - 1].payload| else 0
  }

  predicate EndedIn(frames: seq<Frame>, id: nat) {
    exists k :: 0 <= k < |frames| && EndsStream(frames[k]) && frames[k].streamId == id
  }

  lemma {:induction false} DataAppend(a: seq<Frame>, b: seq<Frame>, id: nat)
    ensures DataOn(a + b, id) == DataOn(a, id) + DataOn(b, id)
    ensures DataTotal(a + b) == DataTotal(a) + DataTotal(b)
    ensures EndedIn(a + b, id) <==> EndedIn(a, id) || EndedIn(b, id)
  {
    if EndedIn(a, id) {
      var k :| 0 <= k < |a| && EndsStream(a[k]) && a[k].streamId == id;
      assert (a + b)[k] == a[k];
    }
    if EndedIn(b, id) {
      var k :| 0 <= k < |b| && EndsStream(b[k]) && b[k].streamId == id;
      assert (a + b)[|a| + k] == b[k];
    }
    if b == [] {
      assert a + b == a;
    } else {
      var front := b[..|b| - 1];
      DataAppend(a, front, id);
      assert (a + b)[..|a + b| - 1] == a + front;
    }
  }

  lemma EndedInLast(front: seq<Frame>, last: Frame, id: nat)
    ensures EndedIn(front + [last], id) <==> EndedIn(front, id) || (EndsStream(last) && last.streamId == id)
  {
    DataAppend(front, [last], id);
    assert [last][0] == last;
  }

  function CountKind(frames: seq<Frame>, kind: Byte): nat {
    if frames == [] then 0
    else CountKind(frames[..|frames| - 1], kind) + if frames[|frames| - 1].kind == kind then 1 else 0
  }

  function CountOn(frames: seq<Frame>, id: nat): nat {
    if frames == [] then 0
    else
      var last := frames[|frames| - 1];
      CountOn(frames[..|frames| - 1], id) + if last.kind == DATA && last.streamId == id then 1 else 0
  }

  /** Whether the last header block of a stream holds the index of ":status 200". */
  function LastStatus(frames: seq<Frame>, id: nat): Option<bool> {
    if frames == [] then None
    else
      var last := frames[|frames| - 1];
      if last.kind == HEADERS && last.streamId == id then Some(STATUS_200 in last.payload)
      else LastStatus(frames[..|frames| - 1], id)
  }

  /** What one frame does to each counter. */
  lemma NoteByField(t: Tally, f: Frame)
    ensures
      var id := f.streamId;
      Note(t, f) ==
      Tally(t.framesSeen + 1,
            t.goaways + (if f.kind == GOAWAY then 1 else 0),
            t.resets + (if f.kind == RST_STREAM then 1 else 0),
            if f.kind == HEADERS then t.statusOk[id := STATUS_200 in f.payload] else t.statusOk,
            if EndsStream(f) then t.endStream + {id} else t.endStream,
            if f.kind == DATA then t.dataLength[id := Get(t.dataLength, id) + |f.payload|] else t.dataLength,
            if f.kind == DATA then t.dataFrames[id := Get(t.dataFrames, id) + 1] else t.dataFrames)
  {}

  lemma NoteBody(t: Tally, f: Frame, id: nat)
    ensures Get(Note(t, f).dataLength, id) == Get(t.dataLength, id) + DataOctets(f, id)
    ensures id in Note(t, f).endStream <==> id in t.endStream || (EndsStream(f) && f.streamId == id)
  {
    NoteByField(t, f);
    hide Note;
  }

  /** Every parsed counter is the one the list of frames defines. */
  lemma {:induction false} CountersMeaning(t: Tally, frames: seq<Frame>, id: nat)
    ensures NoteAll(t, frames).goaways == t.goaways + CountKind(frames, GOAWAY)
    ensures NoteAll(t, frames).resets == t.resets + CountKind(frames, RST_STREAM)
    ensures NoteAll(t, frames).framesSeen == t.framesSeen + |frames|
    ensures Get(NoteAll(t, frames).dataFrames, id) == Get(t.dataFrames, id) + CountOn(frames, id)
    ensures LastStatus(frames, id).Some? ==>
              id in NoteAll(t, frames).statusOk && NoteAll(t, frames).statusOk[id] == LastStatus(frames, id).value
    ensures LastStatus(frames, id).None? ==>
              (id in NoteAll(t, frames).statusOk <==> id in t.statusOk)
              && (id in t.statusOk ==> NoteAll(t, frames).statusOk[id] == t.statusOk[id])
  {
    if frames != [] {
      hide EndsStream;
      CountersMeaning(t, frames[..|frames| - 1], id);
      NoteByField(NoteAll(t, frames[..|frames| - 1]), frames[|frames| - 1]);
      hide Note;
    }
  }

  /** The octets and the end of a stream's body are the ones the list of frames defines. */
  lemma {:induction false} TallyMeaning(t: Tally, frames: seq<Frame>, id: nat)
    ensures Get(NoteAll(t, frames).dataLength, id) == Get(t.dataLength, id) + DataOn(frames, id)
    ensures id in NoteAll(t, frames).endStream <==> id in t.endStream || EndedIn(frames, id)
  {
    if frames != [] {
      hide Note;
      var front, last := frames[..|frames| - 1], frames[|frames| - 1];
      TallyMeaning(t, front, id);
      NoteBody(NoteAll(t, front), last, id);
      EndedInLast(front, last, id);
      assert frames == front + [last];
    }
  }

  /** Every DATA octet is charged once to its stream and once to the connection (section 6.9.1 of RFC 9113). */
  lemma {:induction false} ChargeMeaning(c: Credit, frames: seq<Frame>, id: nat)
    ensures Get(ChargeAll(c, frames).byStream, id) == Get(c.byStream, id) + DataOn(frames, id)
    ensures ChargeAll(c, frames).connection == c.connection + DataTotal(frames)
    ensures id in ChargeAll(c, frames).byStream ==> id in c.byStream || DataOn(frames, id) > 0
  {
    if frames != [] {
      ChargeMeaning(c, frames[..|frames| - 1], id);
    }
  }

  // ----- Returning the credit

  function DueStreams(c: Credit, ended: set<nat>): set<nat> {
    set id | id in c.byStream && id !in ended && c.byStream[id] >= THRESHOLD
  }

  /** What stays owed: small credit of streams that may still carry data. */
  function KeptBack(c: Credit, ended: set<nat>): Credit {
    Credit(map id | id in c.byStream && id !in ended && c.byStream[id] < THRESHOLD :: c.byStream[id],
           if c.connection >= THRESHOLD then 0 else c.connection)
  }

  function WindowUpdate(id: nat, increment: nat): Frame {
    Frame(WINDOW_UPDATE, 0, id, ToBigEndian(increment, 4))
  }

  ghost predicate IsOrdering(order: seq<nat>, ids: set<nat>) {
    (forall i :: i in order <==> i in ids)
    && forall j, k :: 0 <= j < k < |order| ==> order[j] != order[k]
  }

  /** One WINDOW_UPDATE per stream of `order`. */
  function StreamUpdates(c: Credit, order: seq<nat>): (frames: seq<Frame>)
    ensures |frames| == |order|
  {
    seq(|order|, k requires 0 <= k < |order| => WindowUpdate(order[k], Get(c.byStream, order[k])))
  }

  function ConnectionUpdate(c: Credit): seq<Frame> {
    if c.connection >= THRESHOLD then [WindowUpdate(0, c.connection)] else []
  }

  function Updates(c: Credit, order: seq<nat>): seq<Frame> {
    StreamUpdates(c, order) + ConnectionUpdate(c)
  }

  datatype Reader = Reader(buffer: seq<Byte>, tally: Tally, credit: Credit, updatesSent: nat)

  const NEW_READER := Reader([], Tally(0, 0, 0, map[], {}, map[], map[]), Credit(map[], 0), 0)

  /** The credit once a chunk is parsed and before any of it is returned. */
  function Owed(r: Reader, chunk: seq<Byte>): Credit {
    ChargeAll(r.credit, ParseAll(r.buffer + chunk).frames)
  }

  function TallyAfter(r: Reader, chunk: seq<Byte>): Tally {
    NoteAll(r.tally, ParseAll(r.buffer + chunk).frames)
  }

  /** One successful `feed_more`; `order` is the order in which the due streams are visited. */
  function Feed(r: Reader, chunk: seq<Byte>, order: seq<nat>): Reader {
    Reader(ParseAll(r.buffer + chunk).rest,
           TallyAfter(r, chunk),
           KeptBack(Owed(r, chunk), TallyAfter(r, chunk).endStream),
           r.updatesSent + |Updates(Owed(r, chunk), order)|)
  }

  /** What one successful read writes back: one update per due stream in some order, then the connection's. */
  ghost predicate Answers(r: Reader, chunk: seq<Byte>, order: seq<nat>, wire: seq<Byte>) {
    var updates := Updates(Owed(r, chunk), order);
    IsOrdering(order, DueStreams(Owed(r, chunk), TallyAfter(r, chunk).endStream))
    && AllWellFormed(updates) && wire == EncodeAll(updates)
  }

  /** The peer parses what is written back as exactly these updates. */
  lemma AnswersDecode(r: Reader, chunk: seq<Byte>, order: seq<nat>, wire: seq<Byte>)
    requires Answers(r, chunk, order, wire)
    ensures ParseAll(wire) == Parsed(Updates(Owed(r, chunk), order), [])
  {
    hide Updates, Owed, IsOrdering, DueStreams, TallyAfter;
    var updates := Updates(Owed(r, chunk), order);
    StreamRoundTrip(updates, []);
    RestAlone([]);
    assert wire + [] == wire && updates + [] == updates;
  }

  lemma ParsedIs(r: Reader, chunk: seq<Byte>)
    ensures NoteAll(r.tally, ParseAll(r.buffer + chunk).frames) == TallyAfter(r, chunk)
    ensures ChargeAll(r.credit, ParseAll(r.buffer + chunk).frames) == Owed(r, chunk)
  {}

  /** Parsing and then returning the window is one successful read. */
  lemma FeedIs(r: Reader, chunk: seq<Byte>, order: seq<nat>, wire: seq<Byte>, tally: Tally, owed: Credit)
    requires tally == TallyAfter(r, chunk) && owed == Owed(r, chunk)
    requires IsOrdering(order, DueStreams(owed, tally.endStream))
    requires AllWellFormed(Updates(owed, order)) && wire == EncodeAll(Updates(owed, order))
    ensures Answers(r, chunk, order, wire)
    ensures Feed(r, chunk, order) ==
            Reader(ParseAll(r.buffer + chunk).rest, tally, KeptBack(owed, tally.endStream), r.updatesSent + |Updates(owed, order)|)
  {}

  predicate SmallCredit(c: Credit) {
    c.connection < THRESHOLD && forall id :: id in c.byStream ==> c.byStream[id] < THRESHOLD
  }

  predicate StreamIdsFit(c: Credit) {
    forall id :: id in c.byStream ==> id < 0x8000_0000
  }

  /** Between two reads nothing whole is buffered and no credit reaches the threshold. */
  predicate Rested(r: Reader) {
    FirstFrame(r.buffer).None? && SmallCredit(r.credit) && StreamIdsFit(r.credit)
  }

  lemma {:induction false} ChargeKeepsIdsFit(c: Credit, buffer: seq<Byte>)
    requires StreamIdsFit(c)
    ensures StreamIdsFit(ChargeAll(c, ParseAll(buffer).frames))
  {
    var frames := ParseAll(buffer).frames;
    forall id | id in ChargeAll(c, frames).byStream
      ensures id < 0x8000_0000
    {
      ChargeMeaning(c, frames, id);
      if id >= 0x8000_0000 {
        NoDataBeyond31Bits(buffer, id);
      }
    }
  }

  lemma {:induction false} NoDataBeyond31Bits(buffer: seq<Byte>, id: nat)
    requires id >= 0x8000_0000
    ensures DataOn(ParseAll(buffer).frames, id) == 0
    decreases |buffer|
  {
    hide BigEndian, DeclaredLength;
    match FirstFrame(buffer)
    case None =>
    case Some(f) =>
      var rest := buffer[9 + |f.payload|..];
      NoDataBeyond31Bits(rest, id);
      ParseStep(buffer, f);
      DataAppend([f], ParseAll(rest).frames, id);
      assert DataOn([f], id) == 0 by {
        assert [f][..0] == [];
      }
  }

  /** Every successful read ends rested: a whole frame is never left in the buffer, nor credit worth an update. */
  lemma FeedRests(r: Reader, chunk: seq<Byte>, order: seq<nat>)
    requires Rested(r)
    ensures Rested(Feed(r, chunk, order))
  {
    ChargeKeepsIdsFit(r.credit, r.buffer + chunk);
  }

  lemma {:induction false} DataBound(buffer: seq<Byte>, id: nat)
    ensures DataTotal(ParseAll(buffer).frames) <= |buffer|
    ensures DataOn(ParseAll(buffer).frames, id) <= |buffer|
    decreases |buffer|
  {
    hide BigEndian, DeclaredLength;
    match FirstFrame(buffer)
    case None =>
    case Some(f) =>
      var rest := buffer[9 + |f.payload|..];
      DataBound(rest, id);
      ParseStep(buffer, f);
      DataAppend([f], ParseAll(rest).frames, id);
      assert DataTotal([f]) <= |f.payload| && DataOn([f], id) <= |f.payload| by {
        assert [f][..0] == [];
      }
  }

  /** Whatever the peer sends, an increment built from one read fits section 6.9 of RFC 9113: 1 to 2^31 - 1. */
  lemma OwedBound(r: Reader, chunk: seq<Byte>, id: nat)
    requires Rested(r) && |chunk| <= READ_LIMIT
    ensures Owed(r, chunk).connection < 0x8000_0000
    ensures Get(Owed(r, chunk).byStream, id) < 0x8000_0000
  {
    ChargeMeaning(r.credit, ParseAll(r.buffer + chunk).frames, id);
    DataBound(r.buffer + chunk, id);
    LeftoverBound(r.buffer);
    assert ParseAll(r.buffer) == Parsed([], r.buffer);
  }

  /** Every WINDOW_UPDATE one read gives rise to is a legal frame, and carries its increment. */
  lemma UpdatesAreLegal(r: Reader, chunk: seq<Byte>, order: seq<nat>, k: nat)
    requires Rested(r) && |chunk| <= READ_LIMIT
    requires IsOrdering(order, DueStreams(Owed(r, chunk), TallyAfter(r, chunk).endStream))
    requires k < |Updates(Owed(r, chunk), order)|
    ensures
      var f := Updates(Owed(r, chunk), order)[k];
      WellFormed(f) && f.kind == WINDOW_UPDATE && |f.payload| == 4 && THRESHOLD <= BigEndian(f.payload) < 0x8000_0000
  {
    hide BigEndian, ToBigEndian, FirstFrame, ChargeAll, NoteAll;
    var c := Owed(r, chunk);
    ChargeKeepsIdsFit(r.credit, r.buffer + chunk);
    if k < |order| {
      assert order[k] in order;
      OwedBound(r, chunk, order[k]);
      IncrementReadBack(order[k], c.byStream[order[k]]);
    } else {
      OwedBound(r, chunk, 0);
      IncrementReadBack(0, c.connection);
    }
  }

  lemma IncrementReadBack(id: nat, increment: nat)
    requires increment < 0x1_0000_0000
    ensures BigEndian(WindowUpdate(id, increment).payload) == increment
  {
    ReadBack(increment, 4);
    Powers();
  }

  // ----- Reading in chunks

  /** A run of the reader over chunks; `orders[k]` is the visiting order after chunk `k`. */
  function FeedAll(r: Reader, chunks: seq<seq<Byte>>, orders: seq<seq<nat>>): Reader
    requires |orders| == |chunks|
  {
    if chunks == [] then r
    else
      var n := |chunks| - 1;
      Feed(FeedAll(r, chunks[..n], orders[..n]), chunks[n], orders[n])
  }

  /** However the octets are cut into chunks, the counters and the left-over are those of parsing them at once. */
  lemma {:induction false} ChunkInvariance(r: Reader, chunks: seq<seq<Byte>>, orders: seq<seq<nat>>)
    requires |orders| == |chunks| && FirstFrame(r.buffer).None?
    ensures FeedAll(r, chunks, orders).tally == NoteAll(r.tally, ParseAll(r.buffer + Flatten(chunks)).frames)
    ensures FeedAll(r, chunks, orders).buffer == ParseAll(r.buffer + Flatten(chunks)).rest
  {
    hide FirstFrame, ParseAll, Note, KeptBack, Updates;
    if chunks == [] {
      assert r.buffer + Flatten(chunks) == r.buffer;
      RestAlone(r.buffer);
    } else {
      hide NoteAll;
      var n := |chunks| - 1;
      var before := r.buffer + Flatten(chunks[..n]);
      var middle := FeedAll(r, chunks[..n], orders[..n]);
      ChunkInvariance(r, chunks[..n], orders[..n]);
      assert r.buffer + Flatten(chunks) == before + chunks[n];
      ParseAppend(before, chunks[n]);
      NoteAllAppend(r.tally, ParseAll(before).frames, ParseAll(middle.buffer + chunks[n]).frames);
    }
  }

  lemma RestAlone(buffer: seq<Byte>)
    requires FirstFrame(buffer).None?
    ensures ParseAll(buffer) == Parsed([], buffer)
  {}
}
