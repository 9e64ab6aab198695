/** Bytes and the little-endian integers that the message readers and writers exchange. */
module Bytes {
  type byte = x: int | 0 <= x < 256
  type uint16 = x: int | 0 <= x < 0x1_0000
  type uint32 = x: int | 0 <= x < 0x1_0000_0000

  /** The two bytes of MSG_WriteShort, low byte first. */
  function Le16(c: uint16): seq<byte> {
    [c % 0x100, c / 0x100]
  }

  /** The four bytes of MSG_WriteLong, low byte first. */
  function Le32(c: uint32): seq<byte> {
    [c % 0x100, c / 0x100 % 0x100, c / 0x1_0000 % 0x100, c / 0x100_0000]
  }

  function Short(lo: byte, hi: byte): uint16 {
    lo + 0x100 * hi
  }

  function Long(b0: byte, b1: byte, b2: byte, b3: byte): uint32 {
    b0 + 0x100 * b1 + 0x1_0000 * b2 + 0x100_0000 * b3
  }

  /** The number that bytes stand for, the first being the least significant. */
  function LittleEndian(b: seq<byte>): nat {
    if b == [] then 0 else b[0] + 0x100 * LittleEndian(b[1..])
  }

  lemma Le16IsLittleEndian(c: uint16)
    ensures LittleEndian(Le16(c)) == c
  {
    var b := Le16(c);
    assert b[1..] == [b[1]] && [b[1]][1..] == [];
    assert LittleEndian([b[1]]) == b[1];
  }

  lemma Le32IsLittleEndian(c: uint32)
    ensures LittleEndian(Le32(c)) == c
  {
    var b := Le32(c);
    LongOfLe32(c);
    assert b[1..] == [b[1], b[2], b[3]] && [b[1], b[2], b[3]][1..] == [b[2], b[3]] && [b[2], b[3]][1..] == [b[3]];
    assert [b[3]][1..] == [] && LittleEndian([b[3]]) == b[3];
    assert LittleEndian([b[2], b[3]]) == b[2] as int + 0x100 * b[3] as int;
    assert LittleEndian([b[1], b[2], b[3]]) == b[1] as int + 0x100 * (b[2] as int + 0x100 * b[3] as int);
  }

  lemma Le16Length(c: uint16)
    ensures |Le16(c)| == 2
  {
  }

  lemma Le32Length(c: uint32)
    ensures |Le32(c)| == 4
  {
  }

  lemma LongOfLe32(c: uint32)
    ensures var b := Le32(c); Long(b[0], b[1], b[2], b[3]) == c
  {
    var q := c / 0x100;
    var r := q / 0x100;
    assert c / 0x1_0000 == r && c / 0x100_0000 == r / 0x100;
  }

  lemma Le32OfLong(b0: byte, b1: byte, b2: byte, b3: byte)
    ensures Le32(Long(b0, b1, b2, b3)) == [b0, b1, b2, b3]
  {
    var c := Long(b0, b1, b2, b3);
    var r := b2 + 0x100 * b3;
    var q := b1 + 0x100 * r;
    assert c == b0 + 0x100 * q;
    assert c / 0x100 == q && q / 0x100 == r && c / 0x1_0000 == r && c / 0x100_0000 == r / 0x100;
  }

  function Concat(pieces: seq<seq<byte>>): seq<byte> {
    if pieces == [] then [] else Concat(pieces[..|pieces| - 1]) + pieces[|pieces| - 1]
  }

  lemma {:induction false} ConcatFromFront(pieces: seq<seq<byte>>)
    requires pieces != []
    ensures Concat(pieces) == pieces[0] + Concat(pieces[1..])
    decreases |pieces|
  {
    if |pieces| == 1 {
      assert pieces[..0] == [] == pieces[1..];
    } else {
      var front := pieces[..|pieces| - 1];
      ConcatFromFront(front);
      assert pieces[0] + Concat(front[1..]) + pieces[|pieces| - 1]
          == pieces[0] + (Concat(front[1..]) + pieces[|pieces| - 1]);
      assert front[1..] == pieces[1..][..|pieces| - 2];
    }
  }
}
