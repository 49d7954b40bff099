/** WebSocket framing (sections 5.2 and 5.3 of RFC 6455): the three encoders of the samples and probes, and a decoder. */
module WebSocket {
  import opened Options
  import opened Bytes

  // ----- Exclusive or on octets

  function XorBits(a: nat, b: nat, bits: nat): (x: nat) {
    if bits == 0 then 0 else 2 * XorBits(a / 2, b / 2, bits - 1) + if a % 2 == b % 2 then 0 else 1
  }

  function Pow2(n: nat): nat {
    if n == 0 then 1 else 2 * Pow2(n - 1)
  }

  lemma {:induction false} XorBound(a: nat, b: nat, bits: nat)
    ensures XorBits(a, b, bits) < Pow2(bits)
  {
    if bits > 0 { XorBound(a / 2, b / 2, bits - 1); }
  }

  lemma Halve(upper: nat, low: nat, n: nat)
    requires low < 2 && n == 2 * upper + low
    ensures n / 2 == upper && n % 2 == low
  {}

  lemma {:induction false} XorTwice(a: nat, b: nat, bits: nat)
    requires a < Pow2(bits)
    ensures XorBits(XorBits(a, b, bits), b, bits) == a
  {
    if bits > 0 {
      var upper, low := XorBits(a / 2, b / 2, bits - 1), if a % 2 == b % 2 then 0 else 1;
      XorTwice(a / 2, b / 2, bits - 1);
      Halve(upper, low, 2 * upper + low);
      assert XorBits(a, b, bits) == 2 * upper + low;
    }
  }

  function Xor(a: Byte, b: Byte): Byte {
    XorBound(a, b, 8);
    assert Pow2(8) == 256 by { assert Pow2(4) == 16; assert Pow2(8) == 16 * Pow2(4); }
    XorBits(a, b, 8)
  }

  /** Octet i is combined with octet i modulo 4 of the key (section 5.3). */
  function ApplyMask(payload: seq<Byte>, key: seq<Byte>): (masked: seq<Byte>)
    requires |key| == 4
    ensures |masked| == |payload|
  {
    seq(|payload|, i requires 0 <= i < |payload| => Xor(payload[i], key[i % 4]))
  }

  lemma MaskTwice(payload: seq<Byte>, key: seq<Byte>)
    requires |key| == 4
    ensures ApplyMask(ApplyMask(payload, key), key) == payload
  {
    assert Pow2(8) == 256 by { assert Pow2(4) == 16; assert Pow2(8) == 16 * Pow2(4); }
    forall i | 0 <= i < |payload|
      ensures ApplyMask(ApplyMask(payload, key), key)[i] == payload[i]
    {
      XorTwice(payload[i], key[i % 4], 8);
    }
  }

  // ----- The decoder of section 5.2

  /** The first octet, whether the payload was masked, and the payload in the clear. */
  datatype Message = Message(first: Byte, masked: bool, payload: seq<Byte>)

  datatype Decoded = Decoded(message: Message, rest: seq<Byte>)

  /** The payload length and where the extended length field ends; non-minimal and 64-bit lengths are refused. */
  function DecodeLength(bytes: seq<Byte>): Option<(nat, nat)>
    requires |bytes| >= 2
  {
    var short := bytes[1] % 128;
    if short < 126 then Some((short, 2))
    else if short == 126 then
      if |bytes| < 4 || BigEndian(bytes[2..4]) < 126 then None else Some((BigEndian(bytes[2..4]), 4))
    else
      if |bytes| < 10 || BigEndian(bytes[2..10]) < 0x1_0000 || BigEndian(bytes[2..10]) >= 0x8000_0000_0000_0000 then None
      else Some((BigEndian(bytes[2..10]), 10))
  }

  function Decode(bytes: seq<Byte>): (decoded: Option<Decoded>)
    ensures decoded.Some? ==> |decoded.value.rest| < |bytes|
  {
    if |bytes| < 2 || DecodeLength(bytes) == None then None
    else
      var (length, start) := DecodeLength(bytes).value;
      var masked := bytes[1] >= 128;
      var body := if masked then start + 4 else start;
      if |bytes| < body + length then None
      else
        var sent := bytes[body..body + length];
        var payload := if masked then ApplyMask(sent, bytes[start..body]) else sent;
        Some(Decoded(Message(bytes[0], masked, payload), bytes[body + length..]))
  }

  // ----- The encoders

  /** The three length forms; `flag` is 128 for a masked frame. */
  function LengthField(length: nat, flag: nat): (field: seq<Byte>)
    requires flag == 0 || flag == 128
    ensures |field| >= 1
  {
    if length <= 125 then [flag + length]
    else if length <= 0xFFFF then [flag + 126] + ToBigEndian(length, 2)
    else [flag + 127] + ToBigEndian(length, 8)
  }

  const PROBE_KEY: seq<Byte> := [0x11, 0x22, 0x33, 0x44]
  const SAMPLE_KEY: seq<Byte> := [83, 97, 109, 112]  // "Samp"

  /** `make_masked_text_frame` on the encoded text; `to_bytes(8)` needs a length below 2^64. */
  function MaskedTextFrame(payload: seq<Byte>): seq<Byte>
    requires |payload| < 0x1_0000_0000_0000_0000
  {
    [0x81] + LengthField(|payload|, 128) + PROBE_KEY + ApplyMask(payload, PROBE_KEY)
  }

  /** `make_server_text_frame`. */
  function ServerTextFrame(payload: seq<Byte>): seq<Byte>
    requires |payload| < 0x1_0000_0000_0000_0000
  {
    [0x81] + LengthField(|payload|, 0) + payload
  }

  /** What `makeClientFrame` writes: only two length forms, whatever the length. */
  function ClientFrame(opcode: Byte, payload: seq<Byte>): seq<Byte> {
    [FinBit(opcode)]
      + (if |payload| < 126 then [128 + |payload|] else [128 + 126] + [|payload| / 256 % 256, |payload| % 256])
      + SAMPLE_KEY + ApplyMask(payload, SAMPLE_KEY)
  }

  /** `0x80 | opcode`. */
  function FinBit(opcode: Byte): Byte {
    if opcode >= 128 then opcode else opcode + 128
  }

  method MakeClientFrame(opcode: Byte, payload: seq<Byte>) returns (frame: seq<Byte>)
    ensures frame == ClientFrame(opcode, payload)
  {
    frame := [FinBit(opcode)];
    var length := |payload|;
    if length < 126 {
      frame := frame + [128 + length];
    } else {
      frame := frame + [128 + 126];
      frame := frame + [length / 256 % 256];
      frame := frame + [length % 256];
    }
    frame := frame + SAMPLE_KEY;
    ghost var header := frame;
    for index := 0 to length
      invariant frame == header + ApplyMask(payload, SAMPLE_KEY)[..index]
    {
      hide Xor;
      frame := frame + [Xor(payload[index], SAMPLE_KEY[index % 4])];
    }
    assert ApplyMask(payload, SAMPLE_KEY)[..length] == ApplyMask(payload, SAMPLE_KEY);
  }

  // ----- What the decoder recovers

  lemma PowersOf256()
    ensures Pow256(2) == 0x1_0000 && Pow256(8) == 0x1_0000_0000_0000_0000
  {
    assert Pow256(2) == 256 * Pow256(1);
    assert Pow256(4) == 256 * Pow256(3) && Pow256(3) == 256 * Pow256(2);
    assert Pow256(8) == 256 * Pow256(7) && Pow256(7) == 256 * Pow256(6) && Pow256(6) == 256 * Pow256(5) && Pow256(5) == 256 * Pow256(4);
  }

  lemma LengthReadBack(first: Byte, length: nat, flag: nat, tail: seq<Byte>)
    requires (flag == 0 || flag == 128) && length < 0x8000_0000_0000_0000
    ensures
      var bytes := [first] + LengthField(length, flag) + tail;
      DecodeLength(bytes) == Some((length, 1 + |LengthField(length, flag)|)) && (bytes[1] >= 128 <==> flag == 128)
  {
    hide BigEndian, ToBigEndian, Pow256;
    PowersOf256();
    if length > 125 {
      var width := if length <= 0xFFFF then 2 else 8;
      FieldSlice(first, [flag + if width == 2 then 126 else 127], ToBigEndian(length, width), tail);
      ReadBack(length, width);
    }
  }

  lemma FieldSlice(first: Byte, second: seq<Byte>, field: seq<Byte>, tail: seq<Byte>)
    requires |second| == 1
    ensures
      var bytes := [first] + (second + field) + tail;
      |bytes| >= 2 + |field| && bytes[1] == second[0] && bytes[2..2 + |field|] == field
  {}

  /** Any frame with one of the three length forms decodes to its message, and what follows it is left alone. */
  lemma FrameDecodes(first: Byte, payload: seq<Byte>, key: seq<Byte>, tail: seq<Byte>)
    requires |payload| < 0x8000_0000_0000_0000 && (|key| == 0 || |key| == 4)
    ensures
      var masked := |key| == 4;
      var sent := if masked then ApplyMask(payload, key) else payload;
      Decode([first] + LengthField(|payload|, if masked then 128 else 0) + (key + sent + tail)) ==
      Some(Decoded(Message(first, masked, payload), tail))
  {
    hide BigEndian, ToBigEndian, Xor, ApplyMask, LengthField, DecodeLength, Decode;
    var masked := |key| == 4;
    var flag := if masked then 128 else 0;
    var sent := if masked then ApplyMask(payload, key) else payload;
    LengthReadBack(first, |payload|, flag, key + sent + tail);
    PartsDecode(first, LengthField(|payload|, flag), key, sent, tail);
    if masked {
      MaskTwice(payload, key);
    }
  }

  lemma PartsDecode(first: Byte, field: seq<Byte>, key: seq<Byte>, sent: seq<Byte>, tail: seq<Byte>)
    requires |field| >= 1 && (|key| == 0 || |key| == 4)
    requires
      var bytes := [first] + field + (key + sent + tail);
      DecodeLength(bytes) == Some((|sent|, 1 + |field|)) && (bytes[1] >= 128 <==> |key| == 4)
    ensures
      Decode([first] + field + (key + sent + tail)) ==
      Some(Decoded(Message(first, |key| == 4, if |key| == 4 then ApplyMask(sent, key) else sent), tail))
  {
    hide DecodeLength, ApplyMask;
    FrameSlices(first, field, key, sent, tail);
  }

  lemma FrameSlices(first: Byte, field: seq<Byte>, key: seq<Byte>, sent: seq<Byte>, tail: seq<Byte>)
    ensures
      var bytes := [first] + field + (key + sent + tail);
      var start := 1 + |field|;
      var body := start + |key|;
      |bytes| == body + |sent| + |tail| && bytes[start..body] == key
      && bytes[body..body + |sent|] == sent && bytes[body + |sent|..] == tail
  {}

  /** Both Python encoders are undone by the decoder for every payload a frame can carry. */
  lemma ProbeFramesRoundTrip(payload: seq<Byte>, tail: seq<Byte>)
    requires |payload| < 0x8000_0000_0000_0000
    ensures Decode(MaskedTextFrame(payload) + tail) == Some(Decoded(Message(0x81, true, payload), tail))
    ensures Decode(ServerTextFrame(payload) + tail) == Some(Decoded(Message(0x81, false, payload), tail))
  {
    hide Decode, Xor, ApplyMask, LengthField;
    FrameDecodes(0x81, payload, PROBE_KEY, tail);
    FrameDecodes(0x81, payload, [], tail);
    var field := LengthField(|payload|, 128);
    var sent := ApplyMask(payload, PROBE_KEY);
    assert MaskedTextFrame(payload) + tail == [0x81] + field + (PROBE_KEY + sent + tail);
    var plain := LengthField(|payload|, 0);
    assert ServerTextFrame(payload) + tail == [0x81] + plain + ([] + payload + tail);
  }

  /** No frame is a proper prefix of a stream that starts with another: the first frame of a stream is determined. */
  lemma FramesArePrefixFree(p: seq<Byte>, q: seq<Byte>, pTail: seq<Byte>, qTail: seq<Byte>)
    requires |p| < 0x8000_0000_0000_0000 && |q| < 0x8000_0000_0000_0000
    ensures MaskedTextFrame(p) + pTail == MaskedTextFrame(q) + qTail ==> p == q && pTail == qTail
    ensures ServerTextFrame(p) + pTail == ServerTextFrame(q) + qTail ==> p == q && pTail == qTail
    ensures MaskedTextFrame(p) + pTail != ServerTextFrame(q) + qTail
  {
    hide Decode, MaskedTextFrame, ServerTextFrame;
    ProbeFramesRoundTrip(p, pTail);
    ProbeFramesRoundTrip(q, qTail);
  }

  // ----- Whole streams

  /** A text message one of the Python encoders is given. */
  datatype Text = Text(masked: bool, payload: seq<Byte>)

  predicate AllFit(texts: seq<Text>) {
    forall i :: 0 <= i < |texts| ==> |texts[i].payload| < 0x8000_0000_0000_0000
  }

  function Encode(text: Text): (bytes: seq<Byte>)
    requires |text.payload| < 0x8000_0000_0000_0000
    ensures bytes != []
  {
    if text.masked then MaskedTextFrame(text.payload) else ServerTextFrame(text.payload)
  }

  function EncodeAll(texts: seq<Text>): seq<Byte>
    requires AllFit(texts)
  {
    if texts == [] then [] else Encode(texts[0]) + EncodeAll(texts[1..])
  }

  /** The frames of a stream one by one; `None` if it does not consist of whole frames. */
  function DecodeAll(bytes: seq<Byte>): Option<seq<Message>>
    decreases |bytes|
  {
    if bytes == [] then Some([])
    else
      var first := Decode(bytes);
      if first.None? then None
      else
        var later := DecodeAll(first.value.rest);
        if later.None? then None else Some([first.value.message] + later.value)
  }

  function Messages(texts: seq<Text>): (messages: seq<Message>)
    ensures |messages| == |texts|
  {
    seq(|texts|, i requires 0 <= i < |texts| => Message(0x81, texts[i].masked, texts[i].payload))
  }

  lemma DecodesFirst(text: Text, rest: seq<Byte>)
    requires |text.payload| < 0x8000_0000_0000_0000
    ensures Decode(Encode(text) + rest) == Some(Decoded(Message(0x81, text.masked, text.payload), rest))
  {
    hide Decode, MaskedTextFrame, ServerTextFrame;
    ProbeFramesRoundTrip(text.payload, rest);
  }

  lemma MessagesCons(texts: seq<Text>)
    requires texts != []
    ensures Messages(texts) == [Message(0x81, texts[0].masked, texts[0].payload)] + Messages(texts[1..])
  {}

  /** Any list of messages, masked or not, is decoded from the concatenation of its frames. */
  lemma {:induction false} StreamDecodes(texts: seq<Text>)
    requires AllFit(texts)
    ensures DecodeAll(EncodeAll(texts)) == Some(Messages(texts))
    decreases |texts|
  {
    if texts != [] {
      hide Decode, Encode, Messages;
      DecodesFirst(texts[0], EncodeAll(texts[1..]));
      StreamDecodes(texts[1..]);
      MessagesCons(texts);
    }
  }

  /** Two lists of messages with the same octets are the same list: a stream splits in one way only. */
  lemma StreamSplitsOneWay(a: seq<Text>, b: seq<Text>)
    requires AllFit(a) && AllFit(b) && EncodeAll(a) == EncodeAll(b)
    ensures a == b
  {
    hide DecodeAll, EncodeAll, AllFit;
    StreamDecodes(a);
    StreamDecodes(b);
    forall i | 0 <= i < |a|
      ensures a[i] == b[i]
    {
      assert Messages(a)[i] == Messages(b)[i];
    }
  }

  // ----- The sample's encoder

  lemma TwoOctets(length: nat)
    ensures ToBigEndian(length, 2) == [length / 256 % 256, length % 256]
  {
    assert ToBigEndian(length / 256, 1) == [length / 256 % 256] by { assert ToBigEndian(length / 256 / 256, 0) == []; }
  }

  /** The sample's encoder is undone by the decoder exactly when the length fits 16 bits. */
  lemma ClientFrameRoundTrip(opcode: Byte, payload: seq<Byte>, tail: seq<Byte>)
    ensures Decode(ClientFrame(opcode, payload) + tail) == Some(Decoded(Message(FinBit(opcode), true, payload), tail))
            <==> |payload| <= 0xFFFF
  {
    hide Xor, ApplyMask;
    TwoOctets(|payload|);
    var sent := ApplyMask(payload, SAMPLE_KEY);
    if |payload| <= 0xFFFF {
      FrameDecodes(FinBit(opcode), payload, SAMPLE_KEY, tail);
      var field := LengthField(|payload|, 128);
      assert ClientFrame(opcode, payload) + tail == [FinBit(opcode)] + field + (SAMPLE_KEY + sent + tail);
    } else {
      var bytes := ClientFrame(opcode, payload) + tail;
      assert bytes[1] == 254 && bytes[2..4] == ToBigEndian(|payload|, 2);
      ReadBack(|payload|, 2);
      PowersOf256();
      assert DecodeLength(bytes).Some? ==> DecodeLength(bytes).value.0 < |payload|;
    }
  }
}
