/** Little-endian UTF-16: two bytes for each code unit. */
module Utf16 {
  import opened Bytes
  import opened Text

  function Lo(u: Unit): Byte { u % 0x100 }

  function Hi(u: Unit): Byte { u / 0x100 }

  function Join(lo: Byte, hi: Byte): Unit { (lo as int) + 0x100 * (hi as int) }

  function Encode(t: Text): (s: seq<Byte>)
    ensures |s| == 2 * |t|
  {
    if t == [] then [] else [Lo(t[0]), Hi(t[0])] + Encode(t[1..])
  }

  function Decode(s: seq<Byte>): (t: Text)
    requires |s| % 2 == 0
    ensures |t| == |s| / 2
  {
    if s == [] then [] else [Join(s[0], s[1])] + Decode(s[2..])
  }

  lemma {:induction false} EncodeConcat(a: Text, b: Text)
    ensures Encode(a + b) == Encode(a) + Encode(b)
  {
    if a == [] {
      assert a + b == b;
    } else {
      assert (a + b)[1..] == a[1..] + b;
      EncodeConcat(a[1..], b);
    }
  }

  lemma {:induction false} DecodeEncode(t: Text)
    ensures Decode(Encode(t)) == t
  {
    if t != [] {
      assert Encode(t)[2..] == Encode(t[1..]);
      DecodeEncode(t[1..]);
    }
  }

  lemma EncodeOne(u: Unit)
    ensures Encode([u]) == [Lo(u), Hi(u)]
  {
  }

  lemma EncodeNext(t: Text, u: Unit)
    ensures Encode(t + [u]) == Encode(t) + [Lo(u), Hi(u)]
  {
    hide Encode, Lo, Hi;
    EncodeConcat(t, [u]);
    EncodeOne(u);
  }

  /** A unit other than zero has a byte other than zero. */
  lemma UnitBytes(u: Unit)
    ensures Lo(u) == 0 && Hi(u) == 0 <==> u == 0
  {
  }

  lemma JoinBytes(lo: Byte, hi: Byte)
    ensures Lo(Join(lo, hi)) == lo && Hi(Join(lo, hi)) == hi
  {
  }

  lemma EvenTwice(n: nat)
    ensures 2 * n % 2 == 0
  {
  }

  lemma Parity(n: nat)
    requires n % 2 == 0
    ensures (n + 1) % 2 == 1 && (n + 2) % 2 == 0
  {
  }
}
