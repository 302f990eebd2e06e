/** What both bulk directions share. */
module Usb {

  /** The length of a container's header. */
  const HDR_LEN: nat := 12

  const CONTEXT_BLOCK_SIZE: nat := 0x4000

  datatype Ret =
    | OK | IOError | Timeout | Cancelled | GeneralError | DataExpected | RespExpected | Code(code: int) | Undefined

  /** The maximum packet size of an endpoint. */
  type PacketSize = n: nat | n > 0 witness 1

  /** Whole blocks are whole packets: true of every size that USB allows for bulk endpoints. */
  ghost predicate Sane(mp: nat) {
    mp > 0 && CONTEXT_BLOCK_SIZE % mp == 0
  }

  lemma Appended<T>(a: seq<T>, b: seq<T>, c: seq<T>)
    ensures a + b + c == a + (b + c)
  {
  }

  lemma SubRemainder(n: nat, mp: nat)
    requires mp > 0
    ensures (n - n % mp) % mp == 0
  {
    var q := n / mp;
    assert n - n % mp == q * mp;
    MulMod(q, mp);
  }

  lemma {:induction false} MulMod(q: nat, mp: nat)
    requires mp > 0
    ensures (q * mp) % mp == 0
  {
    if q > 0 {
      MulMod(q - 1, mp);
      assert q * mp == (q - 1) * mp + mp;
      AddMod((q - 1) * mp, mp, mp);
    }
  }

  lemma AddMod(a: nat, b: nat, mp: nat)
    requires mp > 0 && a % mp == 0
    ensures (a + b) % mp == b % mp
  {
    var q, r := a / mp, b / mp;
    assert a + b == (q + r) * mp + b % mp;
    Remainder(a + b, q + r, b % mp, mp);
  }

  lemma SubMod(n: nat, a: nat, mp: nat)
    requires mp > 0 && a <= n && a % mp == 0
    ensures (n - a) % mp == n % mp
  {
    AddMod(a, n - a, mp);
  }

  lemma Remainder(x: nat, q: nat, r: nat, mp: nat)
    requires mp > 0 && r < mp && x == q * mp + r
    ensures x % mp == r
  {
    var d := x / mp - q;
    assert x == x / mp * mp + x % mp;
    assert d * mp == r - x % mp;
    MulOrder(d, mp);
  }

  lemma MulOrder(d: int, mp: nat)
    requires mp > 0
    ensures d >= 1 ==> d * mp >= mp
    ensures d <= -1 ==> d * mp <= -(mp as int)
  {
    if d >= 1 {
      assert (d - 1) * mp >= 0;
    } else if d <= -1 {
      assert (-d - 1) * mp >= 0;
    }
  }

  function Pow2(k: nat): nat {
    if k == 0 then 1 else 2 * Pow2(k - 1)
  }

  lemma Powers()
    ensures Pow2(9) == 0x200 && Pow2(10) == 0x400 && Pow2(14) == CONTEXT_BLOCK_SIZE
  {
    assert Pow2(3) == 8 && Pow2(6) == 64 && Pow2(9) == 0x200 && Pow2(12) == 0x1000;
  }

  lemma Doubled(h: nat, r: nat)
    ensures 2 * h * r == 2 * (h * r) && h * (2 * r) == 2 * (h * r)
  {
  }

  lemma OddFactor(d: nat, r: nat)
    requires d % 2 == 1 && d * r % 2 == 0
    ensures r % 2 == 0
  {
    var h := d / 2;
    Doubled(h, r);
    OddTimes(h, r);
    EvenRest(h * r, r, d * r);
  }

  lemma EvenRest(p: nat, r: nat, n: nat)
    requires n == 2 * p + r && n % 2 == 0
    ensures r % 2 == 0
  {
  }

  lemma OddTimes(h: nat, r: nat)
    ensures (2 * h + 1) * r == 2 * h * r + r
  {
  }

  /** A divisor of a power of two divides every power of two that is not smaller than itself. */
  lemma {:induction false} DividesPower(d: nat, r: nat, k: nat, j: nat) returns (s: nat)
    requires d * r == Pow2(k) && j <= k && 0 < d <= Pow2(j)
    ensures d * s == Pow2(j)
    decreases k
  {
    hide Pow2;
    if k == j {
      return r;
    }
    Pow2Step(k);
    if d % 2 == 0 {
      var h := d / 2;
      Pow2Zero();
      Pow2Step(j);
      Doubled(h, r);
      s := DividesPower(h, r, k - 1, j - 1);
      Doubled(h, s);
    } else {
      OddFactor(d, r);
      var q := r / 2;
      Doubled(d, q);
      s := DividesPower(d, q, k - 1, j);
    }
  }

  lemma Pow2Zero()
    ensures Pow2(0) == 1
  {
  }

  lemma Pow2Step(k: nat)
    ensures k > 0 ==> Pow2(k) == 2 * Pow2(k - 1)
  {
  }

  lemma OneOrTwo(mp: nat, s: nat)
    requires mp * s == 0x400 && 0x200 < mp <= 0x400
    ensures mp == 0x400
  {
    assert mp * s == (s - 1) * mp + mp;
    MulOrder(s - 1, mp);
  }

  /** Packet sizes that divide a block and are no larger than 0x400 are powers of two. */
  lemma SmallPackets(mp: nat)
    requires Sane(mp) && mp <= 0x400
    ensures 0x400 % mp == 0 && (mp != 0x400 ==> 0x200 % mp == 0)
  {
    hide Pow2;
    var r := CONTEXT_BLOCK_SIZE / mp;
    assert r * mp == CONTEXT_BLOCK_SIZE;
    Powers();
    var s := DividesPower(mp, r, 14, 10);
    MulMod(s, mp);
    if mp > 0x200 {
      OneOrTwo(mp, s);
    } else {
      var t := DividesPower(mp, r, 14, 9);
      MulMod(t, mp);
    }
  }

  lemma Multiple(k: nat, n: nat, mp: nat)
    requires mp > 0 && n % mp == 0
    ensures (k * n) % mp == 0
  {
    var q := n / mp;
    assert k * n == k * (q * mp) == (k * q) * mp;
    MulMod(k * q, mp);
  }
}
