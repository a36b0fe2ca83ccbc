/** Octets and the fixed-width integers that the wire and file formats store in them. */
module Bytes {
  type byte = b: int | 0 <= b < 256

  function Power256(n: nat): (p: nat)
    ensures p > 0
  {
    if n == 0 then 1 else 256 * Power256(n - 1)
  }

  /** The unsigned little-endian value of a field. */
  function LittleEndian(s: seq<byte>): (v: nat)
    ensures v < Power256(|s|)
  {
    if s == [] then 0 else s[0] + 256 * LittleEndian(s[1..])
  }

  /** The `width` little-endian octets of `v`. */
  function LittleBytes(v: nat, width: nat): (s: seq<byte>)
    ensures |s| == width
  {
    if width == 0 then [] else [v % 256] + LittleBytes(v / 256, width - 1)
  }

  lemma {:induction false} LittleEndianOfBytes(v: nat, width: nat)
    requires v < Power256(width)
    ensures LittleEndian(LittleBytes(v, width)) == v
  {
    if width > 0 {
      assert v / 256 < Power256(width - 1);
      LittleEndianOfBytes(v / 256, width - 1);
      assert LittleBytes(v, width)[1..] == LittleBytes(v / 256, width - 1);
    }
  }

  /** A four-octet network-order length. */
  function BigEndian32(s: seq<byte>): (v: nat)
    requires |s| == 4
    ensures v < 0x1_0000_0000
  {
    0x100_0000 * s[0] as int + 0x1_0000 * s[1] as int + 0x100 * s[2] as int + s[3] as int
  }

  function BigBytes32(v: nat): (s: seq<byte>)
    requires v < 0x1_0000_0000
    ensures |s| == 4
  {
    [v / 0x100_0000, v / 0x1_0000 % 256, v / 256 % 256, v % 256]
  }

  lemma BigEndian32OfBytes(v: nat)
    requires v < 0x1_0000_0000
    ensures BigEndian32(BigBytes32(v)) == v
  {
    assert v / 256 / 256 == v / 0x1_0000 && v / 0x1_0000 / 256 == v / 0x100_0000;
  }

  lemma BigBytes32OfValue(s: seq<byte>)
    requires |s| == 4
    ensures BigBytes32(BigEndian32(s)) == s
  {
    var w := BigEndian32(s);
    assert w / 0x100_0000 == s[0];
    assert w / 0x1_0000 == 0x100 * s[0] as int + s[1] as int;
    assert w / 256 == 0x1_0000 * s[0] as int + 0x100 * s[1] as int + s[2] as int;
  }

  /** The concatenation of a list of pieces. */
  function Flatten<T>(pieces: seq<seq<T>>): (whole: seq<T>)
  {
    if pieces == [] then [] else Flatten(pieces[..|pieces| - 1]) + pieces[|pieces| - 1]
  }

  lemma {:induction false} FlattenPrefix<T>(pieces: seq<seq<T>>, n: nat)
    requires n <= |pieces|
    ensures Flatten(pieces[..n]) <= Flatten(pieces)
    decreases |pieces| - n
  {
    if n == |pieces| {
      assert pieces[..n] == pieces;
    } else {
      assert pieces[..n + 1][..n] == pieces[..n];
      FlattenPrefix(pieces, n + 1);
    }
  }

  lemma Associative<T>(a: seq<T>, b: seq<T>, c: seq<T>)
    ensures (a + b) + c == a + (b + c)
  {}
}
