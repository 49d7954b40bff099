/** The HTTP/2 frame layer of the h2c load client: `encode_frame` and the decoding loop of `FrameReader._parse`. */
module Frames {
  import opened Options
  import opened Bytes

  /** Section 4.1 of RFC 9113: type, flags, stream identifier and payload. */
  datatype Frame = Frame(kind: Byte, flags: Byte, streamId: nat, payload: seq<Byte>)

  const DATA: Byte := 0x0
  const HEADERS: Byte := 0x1
  const RST_STREAM: Byte := 0x3
  const GOAWAY: Byte := 0x7
  const WINDOW_UPDATE: Byte := 0x8

  /** What `struct.pack(">I", ...)` accepts; it raises outside this range. */
  predicate Packable(f: Frame) {
    f.streamId < 0x1_0000_0000 && |f.payload| < 0x1_0000_0000
  }

  function EncodeFrame(f: Frame): (bytes: seq<Byte>)
    requires Packable(f)
    ensures |bytes| == 9 + |f.payload|
  {
    ToBigEndian(|f.payload|, 4)[1..] + [f.kind, f.flags] + ToBigEndian(f.streamId, 4) + f.payload
  }

  predicate AllPackable(frames: seq<Frame>) {
    forall i | 0 <= i < |frames| :: Packable(frames[i])
  }

  function EncodeAll(frames: seq<Frame>): seq<Byte>
    requires AllPackable(frames)
  {
    if frames == [] then [] else EncodeFrame(frames[0]) + EncodeAll(frames[1..])
  }

  function DeclaredLength(buffer: seq<Byte>): nat
    requires |buffer| >= 9
  {
    BigEndian(buffer[0..3])
  }

  /** The first whole frame of the buffer, if there is one. */
  function FirstFrame(buffer: seq<Byte>): (f: Option<Frame>)
    ensures f.Some? ==> |buffer| >= 9 + |f.value.payload|
  {
    if |buffer| < 9 || |buffer| < 9 + DeclaredLength(buffer) then None
    else Some(Frame(buffer[3], buffer[4], BigEndian(buffer[5..9]) % 0x8000_0000, buffer[9..9 + DeclaredLength(buffer)]))
  }

  datatype Parsed = Parsed(frames: seq<Frame>, rest: seq<Byte>)

  /** The frames a buffer holds and what is left over. */
  function ParseAll(buffer: seq<Byte>): (p: Parsed)
    ensures FirstFrame(p.rest).None?
    decreases |buffer|
  {
    match FirstFrame(buffer)
    case None => Parsed([], buffer)
    case Some(f) =>
      var tail := ParseAll(buffer[9 + |f.payload|..]);
      Parsed([f] + tail.frames, tail.rest)
  }

  lemma FirstFrameExtends(a: seq<Byte>, b: seq<Byte>)
    requires FirstFrame(a).Some?
    ensures FirstFrame(a + b) == FirstFrame(a)
  {
    assert (a + b)[0..3] == a[0..3];
    assert (a + b)[5..9] == a[5..9];
    assert (a + b)[9..9 + DeclaredLength(a)] == a[9..9 + DeclaredLength(a)];
  }

  /** Parsing may be interrupted anywhere: the left-over octets and the next chunk are parsed later. */
  lemma {:induction false} ParseAppend(a: seq<Byte>, b: seq<Byte>)
    ensures ParseAll(a + b).frames == ParseAll(a).frames + ParseAll(ParseAll(a).rest + b).frames
    ensures ParseAll(a + b).rest == ParseAll(ParseAll(a).rest + b).rest
    decreases |a|
  {
    hide FirstFrame;
    match FirstFrame(a)
    case None =>
      assert ParseAll(a) == Parsed([], a);
    case Some(f) =>
      hide ParseAll;
      FirstFrameExtends(a, b);
      var n := 9 + |f.payload|;
      assert (a + b)[n..] == a[n..] + b;
      ParseAppend(a[n..], b);
      ParseStep(a, f);
      ParseStep(a + b, f);
  }

  lemma ParseStep(buffer: seq<Byte>, f: Frame)
    requires FirstFrame(buffer) == Some(f)
    ensures ParseAll(buffer).frames == [f] + ParseAll(buffer[9 + |f.payload|..]).frames
    ensures ParseAll(buffer).rest == ParseAll(buffer[9 + |f.payload|..]).rest
  {}

  function Flatten(chunks: seq<seq<Byte>>): seq<Byte> {
    if chunks == [] then [] else Flatten(chunks[..|chunks| - 1]) + chunks[|chunks| - 1]
  }

  /** What is left over is shorter than one frame, so it is bounded whatever the peer sends. */
  lemma LeftoverBound(buffer: seq<Byte>)
    ensures |ParseAll(buffer).rest| < 9 + 0x100_0000
    ensures |ParseAll(buffer).rest| >= 9 ==> |ParseAll(buffer).rest| < 9 + DeclaredLength(ParseAll(buffer).rest)
  {
    var rest := ParseAll(buffer).rest;
    if |rest| >= 9 {
      BigEndianBound(rest[0..3]);
      Powers();
    }
  }

  /** What a decoder sees first in an encoded frame: the length and the stream identifier are cut to 24 and 31 bits. */
  lemma DecodeEncoded(f: Frame, tail: seq<Byte>)
    requires Packable(f)
    ensures
      var n := |f.payload| % 0x100_0000;
      FirstFrame(EncodeFrame(f) + tail) == Some(Frame(f.kind, f.flags, f.streamId % 0x8000_0000, f.payload[..n]))
  {
    hide BigEndian, ToBigEndian, Pow256;
    var b := EncodeFrame(f) + tail;
    var n := |f.payload|;
    Powers();
    LowOctets(n, 3);
    assert b[0..3] == ToBigEndian(n, 4)[1..];
    ReadBack(n, 3);
    assert b[5..9] == ToBigEndian(f.streamId, 4);
    ReadBack(f.streamId, 4);
    var length := DeclaredLength(b);
    assert length == n % 0x100_0000 <= n;
    assert b[9..9 + length] == f.payload[..length];
  }

  lemma Powers()
    ensures Pow256(3) == 0x100_0000 && Pow256(4) == 0x1_0000_0000
  {
    assert Pow256(4) == 256 * Pow256(3) && Pow256(3) == 256 * Pow256(2) && Pow256(2) == 256 * Pow256(1);
  }

  lemma {:induction false} LowOctets(n: nat, width: nat)
    ensures ToBigEndian(n, width + 1)[1..] == ToBigEndian(n, width)
  {
    if width > 0 {
      LowOctets(n / 256, width - 1);
      var longer := ToBigEndian(n / 256, width);
      assert (longer + [n % 256])[1..] == longer[1..] + [n % 256];
    }
  }

  predicate WellFormed(f: Frame) {
    f.streamId < 0x8000_0000 && |f.payload| < 0x100_0000
  }

  predicate AllWellFormed(frames: seq<Frame>)
    ensures AllWellFormed(frames) ==> AllPackable(frames)
  {
    forall i | 0 <= i < |frames| :: WellFormed(frames[i])
  }

  /** One encoded frame decodes to itself with nothing left over exactly when its length and stream identifier fit the header. */
  lemma FrameRoundTrip(f: Frame)
    requires Packable(f)
    ensures ParseAll(EncodeFrame(f)) == Parsed([f], []) <==> WellFormed(f)
  {
    DecodeEncoded(f, []);
    assert EncodeFrame(f) + [] == EncodeFrame(f);
    if WellFormed(f) {
      assert f.payload[..|f.payload|] == f.payload;
      assert EncodeFrame(f)[9 + |f.payload|..] == [];
      ParseStep(EncodeFrame(f), f);
    } else {
      var g := FirstFrame(EncodeFrame(f)).value;
      ParseStep(EncodeFrame(f), g);
      assert |f.payload| % 0x100_0000 == |g.payload|;
      assert g != f;
      assert ParseAll(EncodeFrame(f)).frames[0] == g;
    }
  }

  lemma EncodedStep(f: Frame, tail: seq<Byte>)
    requires WellFormed(f)
    ensures ParseAll(EncodeFrame(f) + tail) == Parsed([f] + ParseAll(tail).frames, ParseAll(tail).rest)
  {
    hide BigEndian, ToBigEndian, DeclaredLength;
    DecodeEncoded(f, tail);
    assert f.payload[..|f.payload|] == f.payload;
    assert (EncodeFrame(f) + tail)[9 + |f.payload|..] == tail;
    ParseStep(EncodeFrame(f) + tail, f);
  }

  /** Concatenated frames come back in order, in front of whatever follows them. */
  lemma {:induction false} StreamRoundTrip(frames: seq<Frame>, tail: seq<Byte>)
    requires AllWellFormed(frames)
    ensures ParseAll(EncodeAll(frames) + tail) == Parsed(frames + ParseAll(tail).frames, ParseAll(tail).rest)
  {
    hide BigEndian, ToBigEndian, DeclaredLength, FirstFrame, EncodeFrame;
    if frames == [] {
      assert EncodeAll(frames) + tail == tail;
    } else {
      var more := EncodeAll(frames[1..]) + tail;
      assert EncodeAll(frames) + tail == EncodeFrame(frames[0]) + more;
      EncodedStep(frames[0], more);
      StreamRoundTrip(frames[1..], tail);
      assert frames + ParseAll(tail).frames == [frames[0]] + (frames[1..] + ParseAll(tail).frames);
    }
  }
}
