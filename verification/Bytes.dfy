/** Little-endian fields of the USB containers. */
module Bytes {

  type Byte = b: int | 0 <= b < 0x100

  function Le16(x: int): (s: seq<Byte>)
    ensures |s| == 2
  {
    [x % 0x100, x / 0x100 % 0x100]
  }

  function Le32(x: int): (s: seq<Byte>)
    ensures |s| == 4
  {
    Le16(x % 0x1_0000) + Le16(x / 0x1_0000)
  }

  function Get16(s: seq<Byte>, at: nat): (x: int)
    requires at + 2 <= |s|
    ensures 0 <= x < 0x1_0000
  {
    (s[at] as int) + 0x100 * (s[at + 1] as int)
  }

  function Get32(s: seq<Byte>, at: nat): (x: int)
    requires at + 4 <= |s|
    ensures 0 <= x < 0x1_0000_0000
  {
    Get16(s, at) + 0x1_0000 * Get16(s, at + 2)
  }

  lemma Le16Sum(x: int)
    ensures (Le16(x)[0] as int) + 0x100 * (Le16(x)[1] as int) == x % 0x1_0000
  {
  }

  lemma Get16Le16(pre: seq<Byte>, x: int, post: seq<Byte>)
    ensures Get16(pre + Le16(x) + post, |pre|) == x % 0x1_0000
  {
    hide Le16;
    var s := pre + Le16(x) + post;
    assert s[|pre|] == Le16(x)[0] && s[|pre| + 1] == Le16(x)[1];
    Le16Sum(x);
  }

  lemma Get32Le32(pre: seq<Byte>, x: int, post: seq<Byte>)
    requires 0 <= x < 0x1_0000_0000
    ensures Get32(pre + Le32(x) + post, |pre|) == x
  {
    var lo, hi := Le16(x % 0x1_0000), Le16(x / 0x1_0000);
    assert pre + Le32(x) + post == pre + lo + (hi + post);
    assert pre + Le32(x) + post == (pre + lo) + hi + post;
    Get16Le16(pre, x % 0x1_0000, hi + post);
    Get16Le16(pre + lo, x / 0x1_0000, post);
  }

  /** The four bytes of a field, the lowest first. */
  lemma FourBytes(x: int)
    ensures Le32(x) == [x % 0x100, x / 0x100 % 0x100, x / 0x1_0000 % 0x100, x / 0x100_0000 % 0x100]
  {
    var lo, hi := x % 0x1_0000, x / 0x1_0000;
    SecondByte(x, lo, hi);
    FourthByte(x, hi);
  }

  lemma SecondByte(x: int, lo: int, hi: int)
    requires x == lo + 0x1_0000 * hi
    ensures x / 0x100 % 0x100 == lo / 0x100 % 0x100 && x % 0x100 == lo % 0x100
  {
    assert x == lo + 0x100 * (0x100 * hi);
    Shifted(lo, 0x100 * hi);
    ShiftedTwice(lo / 0x100, hi);
  }

  lemma FourthByte(x: int, hi: int)
    requires hi == x / 0x1_0000
    ensures x / 0x100_0000 == hi / 0x100
  {
    var lo, a, b := x % 0x1_0000, hi / 0x100, hi % 0x100;
    assert x == 0x100_0000 * a + (0x1_0000 * b + lo);
  }

  lemma FieldBytes(s: seq<Byte>, at: nat)
    requires at + 4 <= |s|
    ensures var b: seq<int> := [s[at], s[at + 1], s[at + 2], s[at + 3]];
      && Get16(s, at) == b[0] + 0x100 * b[1]
      && Get32(s, at) == b[0] + 0x100 * b[1] + 0x1_0000 * b[2] + 0x100_0000 * b[3]
  {
  }

  /** A field keeps the low 32 bits of what is put into it. */
  lemma Get32Low(pre: seq<Byte>, x: int, post: seq<Byte>)
    ensures Get32(pre + Le32(x) + post, |pre|) == x % 0x1_0000_0000
  {
    hide Le16, Get32;
    var y := x % 0x1_0000_0000;
    LowHalves(x);
    assert Le32(y) == Le32(x) by {
      Le16Low(x / 0x1_0000, y / 0x1_0000);
    }
    Get32Le32(pre, y, post);
  }

  lemma LowHalves(x: int)
    ensures var y := x % 0x1_0000_0000;
      y % 0x1_0000 == x % 0x1_0000 && y / 0x1_0000 % 0x1_0000 == x / 0x1_0000 % 0x1_0000
  {
    var y, q := x % 0x1_0000_0000, x / 0x1_0000_0000;
    assert x == y + 0x1_0000 * (0x1_0000 * q);
    ShiftedHalf(y, 0x1_0000 * q);
    ShiftedHalf(y / 0x1_0000, q);
  }

  lemma ShiftedHalf(y: int, k: int)
    ensures (y + 0x1_0000 * k) % 0x1_0000 == y % 0x1_0000 && (y + 0x1_0000 * k) / 0x1_0000 == y / 0x1_0000 + k
  {
  }

  lemma Le16Low(x: int, y: int)
    requires x % 0x1_0000 == y % 0x1_0000
    ensures Le16(x) == Le16(y)
  {
    var k := x / 0x1_0000 - y / 0x1_0000;
    assert x == y + 0x100 * (0x100 * k);
    Shifted(y, 0x100 * k);
    ShiftedTwice(y / 0x100, k);
  }

  lemma Shifted(y: int, k: int)
    ensures (y + 0x100 * k) % 0x100 == y % 0x100 && (y + 0x100 * k) / 0x100 == y / 0x100 + k
  {
  }

  lemma ShiftedTwice(z: int, k: int)
    ensures (z + 0x100 * k) % 0x100 == z % 0x100
  {
  }
}
