/** The client's frame reader itself: a buffer, counters and dictionaries updated in place. */
module FrameReaders {
  import opened Options
  import opened Bytes
  import opened Frames
  import opened ReaderState

  class FrameReader {
    var buffer: seq<Byte>
    var goawayCount: nat
    var rstStreamCount: nat
    var statusOk: map<nat, bool>
    var endStream: set<nat>  // the keys of the source's dictionary; the times are not modelled
    var dataLength: map<nat, nat>
    var dataFrames: map<nat, nat>
    var framesSeen: nat
    var windowUpdatesSent: nat
    var creditByStream: map<nat, nat>
    var creditConnection: nat

    ghost function Counters(): Tally
      reads this
    {
      Tally(framesSeen, goawayCount, rstStreamCount, statusOk, endStream, dataLength, dataFrames)
    }

    ghost function Owing(): Credit
      reads this
    {
      Credit(creditByStream, creditConnection)
    }

    ghost function View(): Reader
      reads this
    {
      Reader(buffer, Counters(), Owing(), windowUpdatesSent)
    }

    ghost predicate Valid()
      reads this
    {
      Rested(View())
    }

    constructor ()
      ensures Valid() && View() == NEW_READER
    {
      buffer, goawayCount, rstStreamCount, statusOk := [], 0, 0, map[];
      endStream, dataLength, dataFrames, framesSeen := {}, map[], map[], 0;
      windowUpdatesSent, creditByStream, creditConnection := 0, map[], 0;
    }

    /** Reads one chunk; an empty one stands for a closed peer or a timeout. `wire` is what is sent back. */
    method FeedMore(chunk: seq<Byte>) returns (ok: bool, wire: seq<Byte>, ghost order: seq<nat>)
      requires Valid() && |chunk| <= READ_LIMIT
      modifies this
      ensures Valid()
      ensures ok <==> chunk != []
      ensures !ok ==> wire == [] && View() == old(View())
      ensures ok ==> View() == Feed(old(View()), chunk, order) && Answers(old(View()), chunk, order, wire)
    {
      if chunk == [] {
        return false, [], [];
      }
      hide ParseAll, NoteAll, ChargeAll, DueStreams, IsOrdering, Updates, EncodeAll, Rested, KeptBack, AllWellFormed, StreamIdsFit;
      hide Owed, TallyAfter, Feed, Answers;
      ghost var before := View();
      buffer := buffer + chunk;
      Parse();
      ParsedIs(before, chunk);
      ghost var tally, owed := Counters(), Owing();
      OwedIsPackable(before, chunk);
      wire, order := ReturnConsumedWindow();
      FeedIs(before, chunk, order, wire, tally, owed);
      FeedRests(before, chunk, order);
      ok := true;
    }

    /** What is owed after one read can be sent back. */
    static lemma OwedIsPackable(r: Reader, chunk: seq<Byte>)
      requires Rested(r) && |chunk| <= READ_LIMIT
      ensures StreamIdsFit(Owed(r, chunk)) && Owed(r, chunk).connection < 0x1_0000_0000
      ensures forall id :: id in Owed(r, chunk).byStream ==> Owed(r, chunk).byStream[id] < 0x1_0000_0000
    {
      ChargeKeepsIdsFit(r.credit, r.buffer + chunk);
      OwedBound(r, chunk, 0);
      forall id | id in Owed(r, chunk).byStream
        ensures Owed(r, chunk).byStream[id] < 0x1_0000_0000
      {
        OwedBound(r, chunk, id);
      }
    }

    /** Takes the whole frames off the buffer, one at a time. */
    method Parse()
      modifies this
      ensures buffer == ParseAll(old(buffer)).rest
      ensures Counters() == NoteAll(old(Counters()), ParseAll(old(buffer)).frames)
      ensures Owing() == ChargeAll(old(Owing()), ParseAll(old(buffer)).frames)
      ensures windowUpdatesSent == old(windowUpdatesSent)
    {
      hide BigEndian, DeclaredLength, FirstFrame, ParseAll, NoteAll, ChargeAll;
      ghost var done: seq<Frame> := [];
      NothingNoted(Counters(), Owing());
      while |buffer| >= 9
        invariant ParseAll(old(buffer)).frames == done + ParseAll(buffer).frames
        invariant ParseAll(old(buffer)).rest == ParseAll(buffer).rest
        invariant Counters() == NoteAll(old(Counters()), done)
        invariant Owing() == ChargeAll(old(Owing()), done)
        invariant windowUpdatesSent == old(windowUpdatesSent)
        decreases |buffer|
      {
        var length := BigEndian(buffer[0..3]);
        if |buffer| < 9 + length {
          NothingWhole(buffer);
          assert done + [] == done;
          return;
        }
        WholeFrameFirst(buffer, length);
        var frameType, flags := buffer[3], buffer[4];
        var streamId := BigEndian(buffer[5..9]) % 0x8000_0000;
        var payload := buffer[9..9 + length];
        buffer := buffer[9 + length..];
        Record(frameType, flags, streamId, payload);
        ghost var f := Frame(frameType, flags, streamId, payload);
        OneMoreNoted(old(Counters()), old(Owing()), done, f);
        assert done + ([f] + ParseAll(buffer).frames) == (done + [f]) + ParseAll(buffer).frames;
        done := done + [f];
      }
      NothingWhole(buffer);
      assert done + [] == done;
    }

    static lemma NothingNoted(t: Tally, c: Credit)
      ensures NoteAll(t, []) == t && ChargeAll(c, []) == c
    {}

    static lemma OneMoreNoted(t: Tally, c: Credit, done: seq<Frame>, f: Frame)
      ensures NoteAll(t, done + [f]) == Note(NoteAll(t, done), f)
      ensures ChargeAll(c, done + [f]) == Charge(ChargeAll(c, done), f)
    {
      assert (done + [f])[..|done|] == done;
    }

    static lemma NothingWhole(bytes: seq<Byte>)
      requires |bytes| < 9 || |bytes| < 9 + BigEndian(bytes[0..3])
      ensures ParseAll(bytes) == Parsed([], bytes)
    {
      RestAlone(bytes);
    }

    static lemma WholeFrameFirst(bytes: seq<Byte>, length: nat)
      requires |bytes| >= 9 && length == BigEndian(bytes[0..3]) && |bytes| >= 9 + length
      ensures
        var f := Frame(bytes[3], bytes[4], BigEndian(bytes[5..9]) % 0x8000_0000, bytes[9..9 + length]);
        ParseAll(bytes).frames == [f] + ParseAll(bytes[9 + length..]).frames
      ensures ParseAll(bytes).rest == ParseAll(bytes[9 + length..]).rest
    {
      hide BigEndian, ParseAll;
      var f := Frame(bytes[3], bytes[4], BigEndian(bytes[5..9]) % 0x8000_0000, bytes[9..9 + length]);
      assert FirstFrame(bytes) == Some(f);
      ParseStep(bytes, f);
    }

    /** The bookkeeping for one frame. */
    method Record(frameType: Byte, flags: Byte, streamId: nat, payload: seq<Byte>)
      modifies this
      ensures buffer == old(buffer) && windowUpdatesSent == old(windowUpdatesSent)
      ensures Counters() == Note(old(Counters()), Frame(frameType, flags, streamId, payload))
      ensures Owing() == Charge(old(Owing()), Frame(frameType, flags, streamId, payload))
    {
      ghost var f := Frame(frameType, flags, streamId, payload);
      NoteByField(Counters(), f);
      hide Get, Note;
      framesSeen := framesSeen + 1;
      if frameType == GOAWAY {
        goawayCount := goawayCount + 1;
      } else if frameType == RST_STREAM {
        rstStreamCount := rstStreamCount + 1;
      } else if frameType == HEADERS {
        statusOk := statusOk[streamId := STATUS_200 in payload];
      } else if frameType == DATA {
        RecordData(streamId, payload);
      }
      if streamId != 0 && (frameType == DATA || frameType == HEADERS) && flags % 2 == 1 {
        endStream := endStream + {streamId};
      }
    }

    /** The DATA branch. */
    method RecordData(streamId: nat, payload: seq<Byte>)
      modifies this`dataLength, this`dataFrames, this`creditByStream, this`creditConnection
      ensures dataLength == old(dataLength)[streamId := Get(old(dataLength), streamId) + |payload|]
      ensures dataFrames == old(dataFrames)[streamId := Get(old(dataFrames), streamId) + 1]
      ensures if payload == [] then Owing() == old(Owing())
              else creditByStream == old(creditByStream)[streamId := Get(old(creditByStream), streamId) + |payload|]
                   && creditConnection == old(creditConnection) + |payload|
    {
      hide Get;
      dataLength := dataLength[streamId := Get(dataLength, streamId) + |payload|];
      dataFrames := dataFrames[streamId := Get(dataFrames, streamId) + 1];
      if payload != [] {
        creditByStream := creditByStream[streamId := Get(creditByStream, streamId) + |payload|];
        creditConnection := creditConnection + |payload|;
      }
    }

    /**
     * Returns the consumed window, stream by stream in some order and then for the connection. The increments
     * and stream identifiers must be packable as 32-bit numbers.
     */
    method ReturnConsumedWindow() returns (wire: seq<Byte>, ghost order: seq<nat>)
      requires StreamIdsFit(Owing()) && creditConnection < 0x1_0000_0000
      requires forall id :: id in creditByStream ==> creditByStream[id] < 0x1_0000_0000
      modifies this
      ensures buffer == old(buffer) && Counters() == old(Counters())
      ensures IsOrdering(order, DueStreams(old(Owing()), endStream))
      ensures Owing() == KeptBack(old(Owing()), endStream)
      ensures AllWellFormed(Updates(old(Owing()), order))
      ensures wire == EncodeAll(Updates(old(Owing()), order))
      ensures windowUpdatesSent == old(windowUpdatesSent) + |Updates(old(Owing()), order)|
    {
      hide ToBigEndian, IsOrdering, DueStreams, StreamUpdates, EncodeAll, AllWellFormed;
      ghost var owed := Owing();
      var frames: seq<Frame>;
      frames, order := ReturnStreams();
      if creditConnection >= THRESHOLD {
        frames := frames + [WindowUpdate(0, creditConnection)];
        creditConnection := 0;
      }
      assert frames == Updates(owed, order);
      UpdatesPack(owed, endStream, order);
      windowUpdatesSent := windowUpdatesSent + |frames|;
      wire := EncodeAll(frames);
    }

    /** The loop over the streams. */
    method ReturnStreams() returns (frames: seq<Frame>, ghost order: seq<nat>)
      modifies this`creditByStream
      ensures IsOrdering(order, DueStreams(old(Owing()), endStream))
      ensures creditByStream == KeptBack(old(Owing()), endStream).byStream
      ensures frames == StreamUpdates(old(Owing()), order)
    {
      hide IsOrdering, DueStreams, KeptBack, StreamUpdates, WindowUpdate, Visiting;
      ghost var owed := Owing();
      frames, order := [], [];
      var todo := creditByStream.Keys;
      ghost var visited: set<nat> := {};
      VisitedNone(owed, endStream);
      while todo != {}
        invariant todo == owed.byStream.Keys - visited
        invariant Visiting(owed, endStream, visited, creditByStream, order, frames)
        decreases |todo|
      {
        var id :| id in todo;
        VisitStep(owed, endStream, visited, creditByStream, order, frames, id);
        var increment := creditByStream[id];
        if id in endStream {
          creditByStream := creditByStream - {id};
        } else if increment >= THRESHOLD {
          frames := frames + [WindowUpdate(id, increment)];
          creditByStream := creditByStream - {id};
          order := order + [id];
        }
        visited := visited + {id};
        todo := todo - {id};
      }
      VisitedAll(owed, endStream, visited, creditByStream, order, frames);
    }

    /** The stream credit when the streams of `visited` have been dealt with. */
    static ghost function Remaining(owed: Credit, ended: set<nat>, visited: set<nat>): map<nat, nat> {
      map id | id in owed.byStream && (id !in visited || id in KeptBack(owed, ended).byStream) :: owed.byStream[id]
    }

    /** The streams of `visited` have been dealt with: `credit`, `order` and `frames` are what that leaves and gives. */
    static ghost predicate Visiting(owed: Credit, ended: set<nat>, visited: set<nat>, credit: map<nat, nat>,
                                    order: seq<nat>, frames: seq<Frame>)
    {
      visited <= owed.byStream.Keys && credit == Remaining(owed, ended, visited)
      && IsOrdering(order, DueStreams(owed, ended) * visited) && frames == StreamUpdates(owed, order)
    }

    /** One stream, branch by branch. */
    static lemma VisitStep(owed: Credit, ended: set<nat>, visited: set<nat>, credit: map<nat, nat>,
                           order: seq<nat>, frames: seq<Frame>, id: nat)
      requires Visiting(owed, ended, visited, credit, order, frames) && id in owed.byStream.Keys - visited
      ensures id in credit
      ensures
        if id in ended then Visiting(owed, ended, visited + {id}, credit - {id}, order, frames)
        else if credit[id] >= THRESHOLD then
          Visiting(owed, ended, visited + {id}, credit - {id}, order + [id], frames + [WindowUpdate(id, credit[id])])
        else Visiting(owed, ended, visited + {id}, credit, order, frames)
    {
      hide IsOrdering, StreamUpdates, WindowUpdate, Remaining, DueStreams;
      RemainingHas(owed, ended, visited, id);
      VisitOne(owed, ended, visited, id);
      if id !in ended && credit[id] >= THRESHOLD {
        OrderOneMore(owed, order, DueStreams(owed, ended) * visited, id);
      }
    }

    static lemma RemainingHas(owed: Credit, ended: set<nat>, visited: set<nat>, id: nat)
      requires id in owed.byStream && id !in visited
      ensures id in Remaining(owed, ended, visited) && Remaining(owed, ended, visited)[id] == owed.byStream[id]
      ensures id !in DueStreams(owed, ended) * visited
    {}

    static lemma VisitOne(owed: Credit, ended: set<nat>, visited: set<nat>, id: nat)
      requires id in owed.byStream && id !in visited
      ensures
        var kept := id !in ended && owed.byStream[id] < THRESHOLD;
        Remaining(owed, ended, visited + {id}) ==
          if kept then Remaining(owed, ended, visited) else Remaining(owed, ended, visited) - {id}
      ensures
        var due := id !in ended && owed.byStream[id] >= THRESHOLD;
        DueStreams(owed, ended) * (visited + {id}) ==
          if due then DueStreams(owed, ended) * visited + {id} else DueStreams(owed, ended) * visited
    {}

    static lemma VisitedNone(owed: Credit, ended: set<nat>)
      ensures Visiting(owed, ended, {}, owed.byStream, [], [])
    {}

    static lemma VisitedAll(owed: Credit, ended: set<nat>, visited: set<nat>, credit: map<nat, nat>,
                            order: seq<nat>, frames: seq<Frame>)
      requires Visiting(owed, ended, visited, credit, order, frames) && owed.byStream.Keys - visited == {}
      ensures KeptBack(owed, ended) == Credit(credit, if owed.connection >= THRESHOLD then 0 else owed.connection)
      ensures IsOrdering(order, DueStreams(owed, ended)) && frames == StreamUpdates(owed, order)
    {
      hide IsOrdering, StreamUpdates;
      forall id | id in owed.byStream
        ensures id in visited
      {
        assert id !in owed.byStream.Keys - visited;
      }
      assert visited == owed.byStream.Keys;
      assert DueStreams(owed, ended) * visited == DueStreams(owed, ended);
    }

    static lemma OrderOneMore(owed: Credit, order: seq<nat>, ids: set<nat>, id: nat)
      requires IsOrdering(order, ids) && id !in ids
      ensures IsOrdering(order + [id], ids + {id})
      ensures StreamUpdates(owed, order + [id]) == StreamUpdates(owed, order) + [WindowUpdate(id, Get(owed.byStream, id))]
    {
      hide ToBigEndian;
    }

    static lemma UpdatesPack(owed: Credit, ended: set<nat>, order: seq<nat>)
      requires StreamIdsFit(owed) && IsOrdering(order, DueStreams(owed, ended))
      ensures AllWellFormed(Updates(owed, order))
    {
      hide ToBigEndian;
      forall k | 0 <= k < |order|
        ensures WellFormed(StreamUpdates(owed, order)[k])
      {
        assert order[k] in order;
      }
    }
  }
}
