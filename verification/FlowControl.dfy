/**
 * The load client against a server that obeys sections 5.2 and 6.9 of RFC 9113: a system whose steps are a request
 * reaching the server, the server sending a frame, the network delivering any chunk of the octets in flight, and the
 * server reading a WINDOW_UPDATE.
 */
module FlowControl {
  import opened Bytes
  import opened Frames
  import opened ReaderState

  /** SETTINGS_INITIAL_WINDOW_SIZE and the connection's initial window. */
  const INITIAL_WINDOW: nat := 65535
  /** SETTINGS_MAX_FRAME_SIZE, which the client does not raise. */
  const MAX_FRAME: nat := 16384

  /**
   * The server's side of one response: its flow-controlled octets, how many are unsent, its window, whether END_STREAM
   * is sent, and whether the request has come in at all.
   */
  datatype Stream = Stream(body: nat, unsent: nat, window: int, finished: bool, asked: bool)

  datatype State = State(
    ids: seq<nat>,
    streams: map<nat, Stream>,
    window: int,          // the server's connection window
    control: nat,         // how many frames without octets of a body the server may still send
    down: seq<Byte>,      // octets in flight to the client
    client: Reader,
    up: seq<Frame>)       // WINDOW_UPDATE frames in flight to the server

  datatype Action =
    | Open(id: nat)
    | Send(frame: Frame)
    | Deliver(size: nat, order: seq<nat>)
    | Receive

  /** DATA or HEADERS with END_STREAM, or DATA with octets. */
  predicate CarriesBody(f: Frame) {
    EndsStream(f) || (f.kind == DATA && f.payload != [])
  }

  predicate MayOpen(s: State, id: nat) {
    id in s.streams && !s.streams[id].asked
  }

  function AfterOpen(s: State, id: nat): State
    requires MayOpen(s, id)
  {
    s.(streams := s.streams[id := s.streams[id].(asked := true)])
  }

  predicate MaySend(s: State, f: Frame) {
    var n := |f.payload|;
    n <= MAX_FRAME && f.streamId < 0x8000_0000
    && (f.kind == DATA || CarriesBody(f) ==> f.streamId in s.streams && s.streams[f.streamId].asked && !s.streams[f.streamId].finished)
    && (f.kind == DATA ==>
          n <= s.streams[f.streamId].unsent && n <= s.streams[f.streamId].window && n <= s.window)
    && (EndsStream(f) ==> s.streams[f.streamId].unsent == DataOctets(f, f.streamId))
    && (!CarriesBody(f) ==> s.control > 0)
  }

  function AfterSend(s: State, f: Frame): State
    requires MaySend(s, f)
  {
    var sent := s.(down := s.down + EncodeFrame(f));
    if CarriesBody(f) then
      var n := DataOctets(f, f.streamId);
      var stream := s.streams[f.streamId];
      var left := stream.(unsent := stream.unsent - n, window := stream.window - n, finished := EndsStream(f));
      sent.(streams := s.streams[f.streamId := left],
            window := s.window - n)
    else sent.(control := s.control - 1)
  }

  ghost predicate MayDeliver(s: State, size: nat, order: seq<nat>) {
    1 <= size <= READ_LIMIT && size <= |s.down|
    && IsOrdering(order, DueStreams(Owed(s.client, s.down[..size]), TallyAfter(s.client, s.down[..size]).endStream))
  }

  function AfterDeliver(s: State, size: nat, order: seq<nat>): State
    requires size <= |s.down|
  {
    var chunk := s.down[..size];
    s.(down := s.down[size..],
       client := Feed(s.client, chunk, order),
       up := s.up + Updates(Owed(s.client, chunk), order))
  }

  /** Section 6.9: stream 0 is the connection; an update for a stream the server does not know is ignored. */
  function AfterReceive(s: State): State
    requires s.up != []
  {
    var f := s.up[0];
    var increment := BigEndian(f.payload);
    var rest := s.(up := s.up[1..]);
    if f.streamId == 0 then rest.(window := s.window + increment)
    else if f.streamId in s.streams then
      var stream := s.streams[f.streamId];
      rest.(streams := s.streams[f.streamId := stream.(window := stream.window + increment)])
    else rest
  }

  ghost predicate Enabled(s: State, a: Action) {
    match a
    case Open(id) => MayOpen(s, id)
    case Send(f) => MaySend(s, f)
    case Deliver(size, order) => MayDeliver(s, size, order)
    case Receive => s.up != []
  }

  ghost function Next(s: State, a: Action): State
    requires Enabled(s, a)
  {
    match a
    case Open(id) => AfterOpen(s, id)
    case Send(f) => AfterSend(s, f)
    case Deliver(size, order) => AfterDeliver(s, size, order)
    case Receive => AfterReceive(s)
  }

  /** No request has come in yet. */
  ghost predicate Initial(s: State) {
    IsOrdering(s.ids, s.streams.Keys)
    && (forall id :: id in s.streams ==> 0 < id < 0x8000_0000)
    && (forall id :: id in s.streams ==>
          s.streams[id] == Stream(s.streams[id].body, s.streams[id].body, INITIAL_WINDOW, false, false))
    && s.window == INITIAL_WINDOW && s.down == [] && s.client == NEW_READER && s.up == []
  }

  // ----- The invariant

  /** The frames sent and not yet parsed: in flight, or partly in the client's buffer. */
  function InTransit(s: State): seq<Frame> {
    ParseAll(s.client.buffer + s.down).frames
  }

  function Increments(updates: seq<Frame>, id: nat): nat {
    if updates == [] then 0
    else Increments(updates[..|updates| - 1], id) + IncrementOf(updates[|updates| - 1], id)
  }

  function IncrementOf(f: Frame, id: nat): nat {
    if f.streamId == id then BigEndian(f.payload) else 0
  }

  ghost predicate Shape(s: State) {
    IsOrdering(s.ids, s.streams.Keys) && forall id :: id in s.streams ==> 0 < id < 0x8000_0000
  }

  ghost predicate Framed(s: State) {
    Rested(s.client)
    && ParseAll(s.client.buffer + s.down).rest == []
    && (forall id :: id in s.client.credit.byStream ==> id in s.streams)
    && forall id :: DataOn(InTransit(s), id) > 0 ==> id in s.streams
  }

  /** Connection level: every octet of the window is available, in transit, owed by the client or coming back. */
  predicate ConnectionBalance(s: State) {
    s.window + DataTotal(InTransit(s)) + s.client.credit.connection + Increments(s.up, 0) == INITIAL_WINDOW
  }

  /** What a stream's window, octets in transit, credit and updates under way add up to. */
  function StreamTotal(s: State, id: nat): int
    requires id in s.streams
  {
    s.streams[id].window + DataOn(InTransit(s), id) + Get(s.client.credit.byStream, id) + Increments(s.up, id)
  }

  /** Stream level: the same balance until the client has seen the end; then the credit is dropped. */
  predicate StreamBalance(s: State, id: nat)
    requires id in s.streams
  {
    StreamTotal(s, id) <= INITIAL_WINDOW
    && (id !in s.client.tally.endStream ==> StreamTotal(s, id) == INITIAL_WINDOW)
  }

  /** The body of a stream is unsent, in transit or counted by the client; END_STREAM is not lost. */
  predicate BodyAccounted(s: State, id: nat)
    requires id in s.streams
  {
    var stream := s.streams[id];
    stream.unsent + DataOn(InTransit(s), id) + Get(s.client.tally.dataLength, id) == stream.body
    && (stream.finished <==> id in s.client.tally.endStream || EndedIn(InTransit(s), id))
    && (stream.finished ==> stream.unsent == 0)
  }

  ghost predicate Invariant(s: State) {
    Shape(s) && Framed(s) && s.window >= 0 && ConnectionBalance(s)
    && forall id :: id in s.streams ==> s.streams[id].window >= 0 && StreamBalance(s, id) && BodyAccounted(s, id)
  }

  lemma InitialInvariant(s: State)
    requires Initial(s)
    ensures Invariant(s)
  {
    RestAlone([]);
    assert s.client.buffer + s.down == [];
  }

  lemma {:induction false} IncrementsAppend(a: seq<Frame>, b: seq<Frame>, id: nat)
    ensures Increments(a + b, id) == Increments(a, id) + Increments(b, id)
  {
    hide BigEndian;
    if b == [] {
      assert a + b == a;
    } else {
      var front := b[..|b| - 1];
      IncrementsAppend(a, front, id);
      assert (a + b)[..|a + b| - 1] == a + front;
    }
  }

  // ----- Opening

  lemma OpenKeeps(s: State, id: nat)
    requires Invariant(s) && MayOpen(s, id)
    ensures Invariant(AfterOpen(s, id))
  {
    hide ParseAll, DataOn, DataTotal, EndedIn, Increments, Rested, IsOrdering, StreamBalance, BodyAccounted;
    var s' := AfterOpen(s, id);
    assert s'.streams.Keys == s.streams.Keys && InTransit(s') == InTransit(s);
    forall i | i in s.streams
      ensures s'.streams[i].window >= 0 && StreamBalance(s', i) && BodyAccounted(s', i)
    {
      OpenStream(s, id, i);
    }
    hide InTransit;
  }

  lemma OpenStream(s: State, id: nat, i: nat)
    requires MayOpen(s, id) && i in s.streams && s.streams[i].window >= 0 && StreamBalance(s, i) && BodyAccounted(s, i)
    ensures
      var s' := AfterOpen(s, id);
      s'.streams[i].window >= 0 && StreamBalance(s', i) && BodyAccounted(s', i)
  {
    hide ParseAll, DataOn, EndedIn, Increments;
    assert InTransit(AfterOpen(s, id)) == InTransit(s);
    hide InTransit;
  }

  // ----- Sending

  lemma SendInTransit(s: State, f: Frame)
    requires Framed(s) && WellFormed(f)
    ensures
      var p := ParseAll(s.client.buffer + (s.down + EncodeFrame(f)));
      p == Parsed(InTransit(s) + [f], [])
  {
    hide BigEndian, DeclaredLength, EncodeFrame, FirstFrame;
    var before := s.client.buffer + s.down;
    assert s.client.buffer + (s.down + EncodeFrame(f)) == before + EncodeFrame(f);
    ParseAppend(before, EncodeFrame(f));
    assert [] + EncodeFrame(f) == EncodeFrame(f);
    FrameRoundTrip(f);
  }

  lemma SingleFrame(f: Frame, id: nat)
    ensures DataOn([f], id) == DataOctets(f, id)
    ensures DataTotal([f]) == DataOctets(f, f.streamId)
    ensures EndedIn([f], id) <==> EndsStream(f) && f.streamId == id
    ensures Increments([f], id) == IncrementOf(f, id)
  {
    hide BigEndian;
    assert [f][..0] == [] && [f][0] == f;
  }

  /** What sending a frame adds to the frames in transit. */
  lemma SendCounts(s: State, f: Frame, id: nat)
    requires Framed(s) && MaySend(s, f)
    ensures
      var s' := AfterSend(s, f);
      DataOn(InTransit(s'), id) == DataOn(InTransit(s), id) + DataOctets(f, id)
      && DataTotal(InTransit(s')) == DataTotal(InTransit(s)) + DataOctets(f, f.streamId)
      && (EndedIn(InTransit(s'), id) <==> EndedIn(InTransit(s), id) || (EndsStream(f) && f.streamId == id))
      && ParseAll(s'.client.buffer + s'.down).rest == []
  {
    hide BigEndian, EncodeFrame, FirstFrame, ParseAll, DataOn, DataTotal, EndedIn;
    SendInTransit(s, f);
    assert InTransit(AfterSend(s, f)) == InTransit(s) + [f];
    DataAppend(InTransit(s), [f], id);
    SingleFrame(f, id);
  }

  lemma SendStream(s: State, f: Frame, id: nat)
    requires Invariant(s) && MaySend(s, f) && id in s.streams
    ensures
      var s' := AfterSend(s, f);
      id in s'.streams && s'.streams[id].window >= 0 && StreamBalance(s', id) && BodyAccounted(s', id)
  {
    hide EncodeFrame, InTransit, DataOn, EndedIn, Increments, Rested, IsOrdering;
    assert StreamBalance(s, id) && BodyAccounted(s, id);
    SendCounts(s, f, id);
  }

  lemma SendKeeps(s: State, f: Frame)
    requires Invariant(s) && MaySend(s, f)
    ensures Invariant(AfterSend(s, f))
  {
    hide EncodeFrame, InTransit, ParseAll, DataOn, DataTotal, EndedIn, Increments, Rested, IsOrdering, StreamBalance, BodyAccounted;
    var s' := AfterSend(s, f);
    SendCounts(s, f, 0);
    forall id
      ensures DataOn(InTransit(s'), id) > 0 ==> id in s.streams
    {
      SendCounts(s, f, id);
    }
    forall id | id in s.streams
      ensures id in s'.streams && s'.streams[id].window >= 0 && StreamBalance(s', id) && BodyAccounted(s', id)
    {
      SendStream(s, f, id);
    }
    assert s'.streams.Keys == s.streams.Keys;
  }

  // ----- Receiving a WINDOW_UPDATE

  lemma ReceiveCounts(s: State, id: nat)
    requires s.up != []
    ensures Increments(s.up, id) == IncrementOf(s.up[0], id) + Increments(s.up[1..], id)
  {
    hide BigEndian, Increments;
    assert s.up == [s.up[0]] + s.up[1..];
    IncrementsAppend([s.up[0]], s.up[1..], id);
    SingleFrame(s.up[0], id);
  }

  lemma ReceiveStream(s: State, id: nat)
    requires Invariant(s) && s.up != [] && id in s.streams
    ensures
      var s' := AfterReceive(s);
      id in s'.streams && s'.streams[id].window >= 0 && StreamBalance(s', id) && BodyAccounted(s', id)
  {
    hide BigEndian, ParseAll, DataOn, EndedIn, Increments, Rested, IsOrdering;
    assert StreamBalance(s, id) && BodyAccounted(s, id);
    ReceiveCounts(s, id);
    assert InTransit(AfterReceive(s)) == InTransit(s);
  }

  lemma ReceiveKeeps(s: State)
    requires Invariant(s) && s.up != []
    ensures Invariant(AfterReceive(s))
  {
    hide BigEndian, ParseAll, DataOn, DataTotal, Increments, Rested, IsOrdering, StreamBalance, BodyAccounted;
    var s' := AfterReceive(s);
    ReceiveCounts(s, 0);
    assert InTransit(s') == InTransit(s);
    ReceiveShape(s);
    hide Framed, Shape, InTransit;
    forall id | id in s.streams
      ensures id in s'.streams && s'.streams[id].window >= 0 && StreamBalance(s', id) && BodyAccounted(s', id)
    {
      ReceiveStream(s, id);
    }
    assert s'.streams.Keys == s.streams.Keys;
  }

  lemma ReceiveShape(s: State)
    requires Shape(s) && Framed(s) && s.up != []
    ensures Shape(AfterReceive(s)) && Framed(AfterReceive(s))
  {
    hide BigEndian, ParseAll, DataOn, Rested, IsOrdering;
    assert AfterReceive(s).streams.Keys == s.streams.Keys;
  }

  // ----- Delivering a chunk

  lemma {:induction false} StreamUpdatesSum(c: Credit, order: seq<nat>, ids: set<nat>, id: nat)
    requires IsOrdering(order, ids)
    requires forall i :: i in c.byStream ==> c.byStream[i] < 0x1_0000_0000
    ensures Increments(StreamUpdates(c, order), id) == if id in ids then Get(c.byStream, id) else 0
  {
    hide BigEndian, ToBigEndian;
    if order != [] {
      var n := |order| - 1;
      var last := order[n];
      assert last in order;
      assert IsOrdering(order[..n], ids - {last}) by {
        forall i ensures i in order[..n] <==> i in ids - {last} {
          if i in order && i != last {
            var k :| 0 <= k < |order| && order[k] == i;
            assert order[..n][k] == i;
          }
        }
      }
      StreamUpdatesSum(c, order[..n], ids - {last}, id);
      assert StreamUpdates(c, order)[..n] == StreamUpdates(c, order[..n]);
      IncrementReadBack(last, Get(c.byStream, last));
    }
  }

  /** Returning moves credit onto the wire: nothing is lost on the connection, nor on a stream that may still carry data. */
  lemma ReturningBalances(c: Credit, ended: set<nat>, order: seq<nat>, id: nat)
    requires IsOrdering(order, DueStreams(c, ended)) && 0 !in c.byStream
    requires c.connection < 0x1_0000_0000 && forall i :: i in c.byStream ==> c.byStream[i] < 0x1_0000_0000
    ensures KeptBack(c, ended).connection + Increments(Updates(c, order), 0) == c.connection
    ensures id != 0 ==> Get(KeptBack(c, ended).byStream, id) + Increments(Updates(c, order), id) <= Get(c.byStream, id)
    ensures id != 0 && id !in ended ==>
              Get(KeptBack(c, ended).byStream, id) + Increments(Updates(c, order), id) == Get(c.byStream, id)
  {
    hide BigEndian, ToBigEndian, Increments, StreamUpdates, WindowUpdate;
    forall i
      ensures Increments(Updates(c, order), i) ==
                (if i in DueStreams(c, ended) then Get(c.byStream, i) else 0)
                + if i == 0 && c.connection >= THRESHOLD then c.connection else 0
    {
      StreamUpdatesSum(c, order, DueStreams(c, ended), i);
      IncrementsAppend(StreamUpdates(c, order), ConnectionUpdate(c), i);
      ConnectionUpdateSum(c, i);
    }
  }

  lemma ConnectionUpdateSum(c: Credit, id: nat)
    requires c.connection < 0x1_0000_0000
    ensures Increments(ConnectionUpdate(c), id) == if id == 0 && c.connection >= THRESHOLD then c.connection else 0
  {
    hide BigEndian, ToBigEndian;
    if c.connection >= THRESHOLD {
      SingleFrame(WindowUpdate(0, c.connection), id);
      IncrementReadBack(0, c.connection);
    }
  }

  lemma DeliverInTransit(s: State, size: nat, order: seq<nat>)
    requires size <= |s.down|
    ensures
      var s' := AfterDeliver(s, size, order);
      InTransit(s) == ParseAll(s.client.buffer + s.down[..size]).frames + InTransit(s')
      && ParseAll(s.client.buffer + s.down).rest == ParseAll(s'.client.buffer + s'.down).rest
  {
    hide BigEndian, DeclaredLength, FirstFrame, NoteAll, ChargeAll, KeptBack, Updates;
    var chunk := s.down[..size];
    assert s.client.buffer + s.down == (s.client.buffer + chunk) + s.down[size..];
    ParseAppend(s.client.buffer + chunk, s.down[size..]);
  }

  /** What one delivery does to the accounts of a stream, or of the connection for stream 0. */
  lemma DeliverCounts(s: State, size: nat, order: seq<nat>, id: nat)
    requires Shape(s) && Framed(s) && MayDeliver(s, size, order)
    ensures
      var s' := AfterDeliver(s, size, order);
      var got := ParseAll(s.client.buffer + s.down[..size]).frames;
      DataOn(InTransit(s), id) == DataOn(got, id) + DataOn(InTransit(s'), id)
      && DataTotal(InTransit(s)) == DataTotal(got) + DataTotal(InTransit(s'))
      && (EndedIn(InTransit(s), id) <==> EndedIn(got, id) || EndedIn(InTransit(s'), id))
      && (id in s'.client.tally.endStream <==> id in s.client.tally.endStream || EndedIn(got, id))
      && Get(s'.client.tally.dataLength, id) == Get(s.client.tally.dataLength, id) + DataOn(got, id)
      && (id in s'.client.credit.byStream ==> id in s.streams)
      && s'.client.credit.connection + Increments(s'.up, 0) ==
         s.client.credit.connection + DataTotal(got) + Increments(s.up, 0)
      && (id != 0 ==>
            Get(s'.client.credit.byStream, id) + Increments(s'.up, id) <=
            Get(s.client.credit.byStream, id) + DataOn(got, id) + Increments(s.up, id))
      && (id != 0 && id !in s'.client.tally.endStream ==>
            Get(s'.client.credit.byStream, id) + Increments(s'.up, id) ==
            Get(s.client.credit.byStream, id) + DataOn(got, id) + Increments(s.up, id))
  {
    hide BigEndian, DeclaredLength, FirstFrame, ParseAll, DataOn, DataTotal, EndedIn, Increments, NoteAll, ChargeAll, Updates;
    var s' := AfterDeliver(s, size, order);
    var chunk := s.down[..size];
    var got := ParseAll(s.client.buffer + chunk).frames;
    DeliverInTransit(s, size, order);
    DataAppend(got, InTransit(s'), id);
    TallyMeaning(s.client.tally, got, id);
    forall i
      ensures i in Owed(s.client, chunk).byStream ==> i in s.streams && Owed(s.client, chunk).byStream[i] < 0x8000_0000
    {
      ChargeMeaning(s.client.credit, got, i);
      DataAppend(got, InTransit(s'), i);
      OwedBound(s.client, chunk, i);
    }
    ChargeMeaning(s.client.credit, got, id);
    OwedBound(s.client, chunk, id);
    ReturningBalances(Owed(s.client, chunk), TallyAfter(s.client, chunk).endStream, order, id);
    IncrementsAppend(s.up, Updates(Owed(s.client, chunk), order), id);
    IncrementsAppend(s.up, Updates(Owed(s.client, chunk), order), 0);
  }

  lemma DeliverKeeps(s: State, size: nat, order: seq<nat>)
    requires Invariant(s) && MayDeliver(s, size, order)
    ensures Invariant(AfterDeliver(s, size, order))
  {
    hide BigEndian, DeclaredLength, FirstFrame, ParseAll, DataOn, DataTotal, EndedIn, Increments, Feed, Updates, Owed;
    var s' := AfterDeliver(s, size, order);
    FeedRests(s.client, s.down[..size], order);
    DeliverInTransit(s, size, order);
    DeliverCounts(s, size, order, 0);
    forall id
      ensures id in s'.client.credit.byStream ==> id in s.streams
      ensures DataOn(InTransit(s'), id) > 0 ==> id in s.streams
    {
      DeliverCounts(s, size, order, id);
    }
    forall id | id in s'.streams
      ensures s'.streams[id].window >= 0 && StreamBalance(s', id) && BodyAccounted(s', id)
    {
      DeliverCounts(s, size, order, id);
      assert StreamBalance(s, id) && BodyAccounted(s, id);
    }
  }

  /** Every step keeps both balances and the accounts of every body. */
  lemma StepKeeps(s: State, a: Action)
    requires Invariant(s) && Enabled(s, a)
    ensures Invariant(Next(s, a))
  {
    hide Invariant, MayOpen, MaySend, MayDeliver, AfterOpen, AfterSend, AfterDeliver, AfterReceive;
    match a
    case Open(id) => OpenKeeps(s, id);
    case Send(f) => SendKeeps(s, f);
    case Deliver(size, order) => DeliverKeeps(s, size, order);
    case Receive => ReceiveKeeps(s);
  }
}
