/** Bytes, the numbers they stand for, and the little-endian integers of the file format. */
module Bytes {
  type byte = bv8

  /** Four bits as a number. */
  function Nibble(b3: bool, b2: bool, b1: bool, b0: bool): (v: nat)
    ensures v < 16
  {
    (if b3 then 8 else 0) + (if b2 then 4 else 0) + (if b1 then 2 else 0) + (if b0 then 1 else 0)
  }

  /** The number that a byte stands for, from its bits. */
  function Num(b: byte): (v: nat)
    ensures v < 256
  {
    16 * Nibble(b & 0x80 != 0, b & 0x40 != 0, b & 0x20 != 0, b & 0x10 != 0)
    + Nibble(b & 0x08 != 0, b & 0x04 != 0, b & 0x02 != 0, b & 0x01 != 0)
  }

  function Only(on: bool, mask: byte): byte {
    if on then mask else 0
  }

  /** The byte with these bits. */
  function Pack(b7: bool, b6: bool, b5: bool, b4: bool, b3: bool, b2: bool, b1: bool, b0: bool): byte {
    Only(b7, 0x80) | Only(b6, 0x40) | Only(b5, 0x20) | Only(b4, 0x10) | Only(b3, 0x08) | Only(b2, 0x04) | Only(b1, 0x02) | Only(b0, 0x01)
  }

  lemma PackedBits(b7: bool, b6: bool, b5: bool, b4: bool, b3: bool, b2: bool, b1: bool, b0: bool)
    ensures var b := Pack(b7, b6, b5, b4, b3, b2, b1, b0);
      && (b & 0x80 != 0) == b7 && (b & 0x40 != 0) == b6 && (b & 0x20 != 0) == b5 && (b & 0x10 != 0) == b4
      && (b & 0x08 != 0) == b3 && (b & 0x04 != 0) == b2 && (b & 0x02 != 0) == b1 && (b & 0x01 != 0) == b0
  {
  }

  lemma NibbleSum(h: nat)
    requires h < 16
    ensures Nibble(h >= 8, h % 8 >= 4, h % 4 >= 2, h % 2 >= 1) == h
  {
  }

  /** The byte of a number below 256. */
  function Small(h: nat): (b: byte)
    requires h < 256
    ensures Num(b) == h
  {
    var x, y := h / 16, h % 16;
    NibbleSum(x);
    NibbleSum(y);
    PackedBits(x >= 8, x % 8 >= 4, x % 4 >= 2, x % 2 >= 1, y >= 8, y % 8 >= 4, y % 4 >= 2, y % 2 >= 1);
    Pack(x >= 8, x % 8 >= 4, x % 4 >= 2, x % 2 >= 1, y >= 8, y % 8 >= 4, y % 4 >= 2, y % 2 >= 1)
  }

  lemma NibbleOnce(a3: bool, a2: bool, a1: bool, a0: bool, b3: bool, b2: bool, b1: bool, b0: bool)
    requires Nibble(a3, a2, a1, a0) == Nibble(b3, b2, b1, b0)
    ensures a3 == b3 && a2 == b2 && a1 == b1 && a0 == b0
  {
  }

  lemma NumOnce(a: byte, b: byte)
    requires Num(a) == Num(b)
    ensures a == b
  {
    hide Nibble;
    NibbleOnce(a & 0x80 != 0, a & 0x40 != 0, a & 0x20 != 0, a & 0x10 != 0, b & 0x80 != 0, b & 0x40 != 0, b & 0x20 != 0, b & 0x10 != 0);
    NibbleOnce(a & 0x08 != 0, a & 0x04 != 0, a & 0x02 != 0, a & 0x01 != 0, b & 0x08 != 0, b & 0x04 != 0, b & 0x02 != 0, b & 0x01 != 0);
  }

  function U16(b: seq<byte>): (v: nat)
    requires |b| == 2
    ensures v < 0x1_0000
  {
    Num(b[0]) + 256 * Num(b[1])
  }

  function U32(b: seq<byte>): (v: nat)
    requires |b| == 4
    ensures v < 0x1_0000_0000
  {
    Num(b[0]) + 256 * Num(b[1]) + 0x1_0000 * Num(b[2]) + 0x100_0000 * Num(b[3])
  }

  lemma U16Of(a: byte, b: byte, v: nat)
    requires v < 0x1_0000 && Num(a) == v % 256 && Num(b) == v / 256
    ensures U16([a, b]) == v
  {
    hide Num;
  }

  function EncodeU16(v: nat): (r: seq<byte>)
    requires v < 0x1_0000
    ensures |r| == 2 && U16(r) == v
  {
    var a, b := Small(v % 256), Small(v / 256);
    U16Of(a, b, v);
    [a, b]
  }

  lemma U32Of(a: byte, b: byte, c: byte, d: byte, v: nat)
    requires v < 0x1_0000_0000
    requires Num(a) == v % 256 && Num(b) == v / 256 % 256 && Num(c) == v / 0x1_0000 % 256 && Num(d) == v / 0x100_0000
    ensures U32([a, b, c, d]) == v
  {
    hide Num;
    Digits(v, v / 256, v / 0x1_0000, v / 0x100_0000);
  }

  function EncodeU32(v: nat): (r: seq<byte>)
    requires v < 0x1_0000_0000
    ensures |r| == 4 && U32(r) == v
  {
    var a, b, c, d := Small(v % 256), Small(v / 256 % 256), Small(v / 0x1_0000 % 256), Small(v / 0x100_0000);
    U32Of(a, b, c, d, v);
    [a, b, c, d]
  }

  lemma ZeroByte()
    ensures Small(0) == 0
  {
    hide Small;
    NumOnce(Small(0), 0);
  }

  lemma ZeroEncoded()
    ensures EncodeU32(0) == [0, 0, 0, 0]
  {
    hide Small, Num, U32;
    ZeroByte();
  }

  lemma Digits(v: nat, v1: nat, v2: nat, v3: nat)
    requires v1 == v / 256 && v2 == v / 0x1_0000 && v3 == v / 0x100_0000
    ensures v == v % 256 + 256 * (v1 % 256) + 0x1_0000 * (v2 % 256) + 0x100_0000 * v3
  {
    assert v == v % 256 + 256 * v1;
    assert v2 == v1 / 256 && v1 == v1 % 256 + 256 * v2;
    assert v3 == v2 / 256 && v2 == v2 % 256 + 256 * v3;
  }
}
