/** Bytes and the unsigned fixed-width integers `encoding/binary` reads from
    them, in either byte order. */
module Binary {

  type byte = x: int | 0 <= x < 256

  datatype ByteOrder = LittleEndian | BigEndian

  /** The bytes of an ASCII string, as a Go string literal stores them. */
  function Ascii(s: string): (r: seq<byte>)
    requires forall i :: 0 <= i < |s| ==> s[i] < 128 as char
    ensures |r| == |s| && forall i :: 0 <= i < |s| ==> r[i] == s[i] as int
  {
    if s == [] then [] else [s[0] as int] + Ascii(s[1..])
  }

  function Pow256(n: nat): (p: nat)
    ensures p >= 1
  {
    if n == 0 then 1 else 256 * Pow256(n - 1)
  }

  /** The value of `s`, least significant byte first. */
  function LittleEndianValue(s: seq<byte>): (v: nat)
    ensures v < Pow256(|s|)
  {
    if s == [] then 0 else s[0] + 256 * LittleEndianValue(s[1..])
  }

  /** The value of `s`, most significant byte first. */
  function BigEndianValue(s: seq<byte>): (v: nat)
    ensures v < Pow256(|s|)
  {
    if s == [] then 0 else BigEndianValue(s[..|s| - 1]) * 256 + s[|s| - 1]
  }

  /** The unsigned integer stored in `s` in the given byte order. */
  function Uint(order: ByteOrder, s: seq<byte>): (v: nat)
    ensures v < Pow256(|s|)
  {
    match order
    case LittleEndian => LittleEndianValue(s)
    case BigEndian => BigEndianValue(s)
  }

  function Reverse(s: seq<byte>): (r: seq<byte>)
    ensures |r| == |s|
  {
    if s == [] then [] else Reverse(s[1..]) + [s[0]]
  }

  /** The `width` bytes that store `v`, least significant first. */
  function EncodeLittleEndian(v: nat, width: nat): (s: seq<byte>)
    ensures |s| == width
  {
    if width == 0 then [] else [v % 256] + EncodeLittleEndian(v / 256, width - 1)
  }

  /** The `width` bytes that store `v` in the given byte order. */
  function Encode(order: ByteOrder, v: nat, width: nat): (s: seq<byte>)
    ensures |s| == width
  {
    match order
    case LittleEndian => EncodeLittleEndian(v, width)
    case BigEndian => Reverse(EncodeLittleEndian(v, width))
  }

  lemma {:induction false} LittleEndianOfEncode(v: nat, width: nat)
    requires v < Pow256(width)
    ensures LittleEndianValue(EncodeLittleEndian(v, width)) == v
  {
    if width > 0 {
      var s := EncodeLittleEndian(v, width);
      assert s[1..] == EncodeLittleEndian(v / 256, width - 1);
      LittleEndianOfEncode(v / 256, width - 1);
    }
  }

  /** Reading big-endian is reading the reversed bytes little-endian. */
  lemma {:induction false} BigEndianIsReversedLittleEndian(s: seq<byte>)
    ensures BigEndianValue(s) == LittleEndianValue(Reverse(s))
    decreases |s|
  {
    if s != [] {
      var n := |s|;
      var init := s[..n - 1];
      ReverseOfSnoc(init, s[n - 1]);
      assert init + [s[n - 1]] == s;
      BigEndianIsReversedLittleEndian(init);
      assert Reverse(s)[1..] == Reverse(init);
    }
  }

  lemma {:induction false} ReverseOfSnoc(s: seq<byte>, x: byte)
    ensures Reverse(s + [x]) == [x] + Reverse(s)
  {
    if s != [] {
      assert (s + [x])[1..] == s[1..] + [x];
      ReverseOfSnoc(s[1..], x);
    } else {
      assert s + [x] == [x];
    }
  }

  lemma {:induction false} ReverseReverse(s: seq<byte>)
    ensures Reverse(Reverse(s)) == s
  {
    if s != [] {
      ReverseOfSnoc(Reverse(s[1..]), s[0]);
      ReverseReverse(s[1..]);
    }
  }

  /** Decoding inverts encoding, in both byte orders, for every value that fits. */
  lemma DecodeEncode(order: ByteOrder, v: nat, width: nat)
    requires v < Pow256(width)
    ensures Uint(order, Encode(order, v, width)) == v
  {
    LittleEndianOfEncode(v, width);
    if order == BigEndian {
      var le := EncodeLittleEndian(v, width);
      BigEndianIsReversedLittleEndian(Reverse(le));
      ReverseReverse(le);
    }
  }
}
