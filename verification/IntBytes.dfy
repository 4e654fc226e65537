/** A C `int` in memory: four bytes, two's complement, least significant byte first. */
module IntBytes {

  const INT_MIN := -0x8000_0000
  const INT_MAX := 0x7FFF_FFFF

  type Int32 = x: int | INT_MIN <= x <= INT_MAX
  type Byte = b: nat | b < 256

  const SIZEOF_INT := 4

  function Encode(v: Int32): (bs: seq<Byte>)
    ensures |bs| == SIZEOF_INT
  {
    var u := if v < 0 then v + 0x1_0000_0000 else v;
    [u % 256, u / 256 % 256, u / 256 / 256 % 256, u / 256 / 256 / 256 % 256]
  }

  function Unsigned(bs: seq<Byte>): int
    requires |bs| == SIZEOF_INT
  {
    var b0: int, b1: int, b2: int, b3: int := bs[0], bs[1], bs[2], bs[3];
    b0 + 256 * b1 + 0x1_0000 * b2 + 0x100_0000 * b3
  }

  function Decode(bs: seq<Byte>): Int32
    requires |bs| == SIZEOF_INT
  {
    var u := Unsigned(bs);
    if u > INT_MAX then u - 0x1_0000_0000 else u
  }

  lemma DecodeEncode(v: Int32)
    ensures Decode(Encode(v)) == v
  {
    var u := if v < 0 then v + 0x1_0000_0000 else v;
    var q1 := u / 256;
    var q2 := q1 / 256;
    var q3 := q2 / 256;
    assert q3 % 256 == q3;
    assert Unsigned(Encode(v)) == u % 256 + 256 * (q1 % 256) + 0x1_0000 * (q2 % 256) + 0x100_0000 * q3;
    assert u == u % 256 + 256 * q1;
    assert q1 == q1 % 256 + 256 * q2;
    assert q2 == q2 % 256 + 256 * q3;
    assert Unsigned(Encode(v)) == u;
  }

  lemma EncodeDecode(bs: seq<Byte>)
    requires |bs| == SIZEOF_INT
    ensures Encode(Decode(bs)) == bs
  {
    var u := Unsigned(bs);
    var b0: int, b1: int, b2: int, b3: int := bs[0], bs[1], bs[2], bs[3];
    assert u % 256 == b0 && u / 256 == b1 + 256 * b2 + 0x1_0000 * b3;
    assert u / 256 % 256 == b1 && u / 256 / 256 == b2 + 256 * b3;
    assert u / 256 / 256 % 256 == b2 && u / 256 / 256 / 256 == b3;
  }

  /** Two's complement: modulo 2^32 the value is the sum of its bytes, the least significant one first. */
  lemma BytesAddUp(v: Int32)
    ensures var bs := Encode(v);
            var b0: int, b1: int, b2: int, b3: int := bs[0], bs[1], bs[2], bs[3];
            (v - (b0 + 0x100 * b1 + 0x1_0000 * b2 + 0x100_0000 * b3)) % 0x1_0000_0000 == 0
  {
    DecodeEncode(v);
    var u := Unsigned(Encode(v));
    assert v == u || v == u - 0x1_0000_0000;
  }
}
