/** Octets and big-endian integers, as `int.from_bytes(..., "big")`, `to_bytes` and `struct.pack(">I")` read and write them. */
module Bytes {

  type Byte = b: int | 0 <= b < 256

  function Pow256(width: nat): (p: nat)
    ensures p >= 1
  {
    if width == 0 then 1 else 256 * Pow256(width - 1)
  }

  function BigEndian(bytes: seq<Byte>): nat {
    if bytes == [] then 0 else 256 * BigEndian(bytes[..|bytes| - 1]) + bytes[|bytes| - 1]
  }

  /** The `width` low-order octets of `n`, most significant first. */
  function ToBigEndian(n: nat, width: nat): (bytes: seq<Byte>)
    ensures |bytes| == width
  {
    if width == 0 then [] else ToBigEndian(n / 256, width - 1) + [n % 256]
  }

  lemma {:induction false} BigEndianBound(bytes: seq<Byte>)
    ensures BigEndian(bytes) < Pow256(|bytes|)
  {
    if bytes != [] {
      BigEndianBound(bytes[..|bytes| - 1]);
    }
  }

  /** Reading back what was written gives the number modulo the field's range. */
  lemma {:induction false} ReadBack(n: nat, width: nat)
    ensures BigEndian(ToBigEndian(n, width)) == n % Pow256(width)
  {
    if width > 0 {
      var high := ToBigEndian(n / 256, width - 1);
      assert ToBigEndian(n, width)[..width - 1] == high;
      ReadBack(n / 256, width - 1);
      ModSplit(n, Pow256(width - 1));
    }
  }

  lemma ModSplit(n: nat, p: nat)
    requires p >= 1
    ensures 256 * (n / 256 % p) + n % 256 == n % (256 * p)
  {
    var q := n / 256 / p;
    var low := 256 * (n / 256 % p) + n % 256;
    assert n / 256 == p * q + n / 256 % p;
    assert n == (256 * p) * q + low by {
      assert 256 * (p * q) == (256 * p) * q;
    }
    assert n / 256 % p <= p - 1;
    ModUnique(n, 256 * p, q, low);
  }

  lemma ModUnique(n: nat, d: nat, q: nat, r: nat)
    requires d >= 1 && r < d && n == d * q + r
    ensures n % d == r
  {
    var q', r' := n / d, n % d;
    assert n == d * q' + r';
    if q < q' { MulStep(d, q, q'); }
    if q' < q { MulStep(d, q', q); }
  }

  lemma MulStep(d: nat, small: nat, large: nat)
    requires small < large
    ensures d * small + d <= d * large
  {
    var k: nat := large - small - 1;
    assert large == small + 1 + k;
    Distribute(d, small, k);
  }

  lemma Distribute(d: nat, small: nat, k: nat)
    ensures d * (small + 1 + k) == d * small + d + d * k
    ensures d * k >= 0
  {}

  /** Writing back what was read restores the octets. */
  lemma {:induction false} WriteBack(bytes: seq<Byte>)
    ensures ToBigEndian(BigEndian(bytes), |bytes|) == bytes
  {
    if bytes != [] {
      var front := bytes[..|bytes| - 1];
      WriteBack(front);
      assert bytes == front + [bytes[|bytes| - 1]];
    }
  }
}
