/** Replacing what is not ASCII in a terminated byte string, in place. */
module Strip {
  import opened Bytes

  const UNDERSCORE: Byte := 0x5F

  predicate High(b: Byte) { b > 0x7F }

  predicate AllHigh(s: seq<Byte>) {
    forall b :: b in s ==> High(b)
  }

  predicate AllPlain(s: seq<Byte>) {
    forall b :: b in s ==> !High(b)
  }

  function SkipHigh(s: seq<Byte>): (r: seq<Byte>)
    ensures |r| <= |s| && (r == [] || !High(r[0]))
  {
    if s != [] && High(s[0]) then SkipHigh(s[1..]) else s
  }

  /** Every maximal run of high bytes becomes one underscore. */
  function Stripped(s: seq<Byte>): (r: seq<Byte>)
    ensures AllPlain(r) && |r| <= |s|
    decreases |s|
  {
    if s == [] then []
    else if High(s[0]) then [UNDERSCORE] + Stripped(SkipHigh(s[1..]))
    else [s[0]] + Stripped(s[1..])
  }

  /** What the string in `a` reads as. */
  ghost predicate Holds(a: seq<Byte>, s: seq<Byte>) {
    |s| < |a| && a[..|s|] == s && a[|s|] == 0 && 0 !in s
  }

  method Strlen(a: array<Byte>, ghost s: seq<Byte>) returns (k: nat)
    requires Holds(a[..], s)
    ensures k == |s|
  {
    assert a[|s|] == a[..][|s|] == 0;
    assert forall p :: 0 <= p < |s| ==> a[p] == a[..][..|s|][p] == s[p] && s[p] in s;
    k := 0;
    while a[k] != 0
      invariant k <= |s|
      decreases |s| - k
    {
      k := k + 1;
    }
  }

  /** The write index `j` never passes the read index `i`. */
  method Strip7bitFromUtf8(a: array<Byte>, ghost s: seq<Byte>)
    requires Holds(a[..], s)
    modifies a
    ensures Holds(a[..], Stripped(s))
    ensures a[|Stripped(s)| + 1..] == old(a[|Stripped(s)| + 1..])
  {
    hide Stripped, SkipHigh;
    var i, j: nat := 0, 0;
    var k := Strlen(a, s);
    HoldsPart(a[..], s);
    assert s[0..] == s && a[..0] + Stripped(s) == Stripped(s);
    while i < k
      invariant j <= i <= k == |s| < a.Length
      invariant a[..j] + Stripped(s[i..]) == Stripped(s)
      invariant forall p :: j <= p < a.Length ==> a[p] == old(a[p])
    {
      assert forall p :: i <= p < |s| ==> a[p] == old(a[p]) == old(a[..])[p] == s[p];
      i := CopyOne(a, s, i, j);
      j := j + 1;
    }
    NothingStripped(s[k..]);
    assert a[..j] + [] == a[..j];
    NoZero(s);
    a[j] := 0;
    assert a[..j] == Stripped(s);
  }

  lemma NothingStripped(s: seq<Byte>)
    requires s == []
    ensures Stripped(s) == []
  {
  }

  lemma HoldsPart(a: seq<Byte>, s: seq<Byte>)
    requires Holds(a, s)
    ensures |s| < |a| && a[|s|] == 0 && forall p :: 0 <= p < |s| ==> a[p] == s[p]
  {
    assert forall p :: 0 <= p < |s| ==> a[..|s|][p] == a[p];
  }

  /** Writes one byte and moves past what it stands for. */
  method CopyOne(a: array<Byte>, ghost s: seq<Byte>, i0: nat, j: nat) returns (i: nat)
    requires j <= i0 < |s| < a.Length && a[|s|] == 0
    requires forall p :: i0 <= p < |s| ==> a[p] == s[p]
    modifies a
    ensures i0 < i <= |s|
    ensures a[..j + 1] + Stripped(s[i..]) == old(a[..j]) + Stripped(s[i0..])
    ensures forall p :: j < p < a.Length ==> a[p] == old(a[p])
  {
    hide SkipHigh, Stripped;
    ghost var done := a[..j];
    StrippedOnce(s, i0);
    i := i0 + 1;
    if High(a[i0]) {
      a[j] := UNDERSCORE;
      i := PassRun(a, s, i);
    } else {
      a[j] := a[i0];
    }
    assert a[..j + 1] == done + [a[j]];
    Regroup(done, a[j], Stripped(s[i..]));
  }

  lemma Regroup(done: seq<Byte>, b: Byte, rest: seq<Byte>)
    ensures done + [b] + rest == done + ([b] + rest)
  {
  }

  lemma StrippedOnce(s: seq<Byte>, i: nat)
    requires i < |s|
    ensures Stripped(s[i..]) ==
      if High(s[i]) then [UNDERSCORE] + Stripped(SkipHigh(s[i + 1..]))
      else [s[i]] + Stripped(s[i + 1..])
  {
    hide SkipHigh;
    assert s[i..][0] == s[i] && s[i..][1..] == s[i + 1..];
  }

  /** Skips the bytes that belong to the run; the terminator ends it at the latest. */
  method PassRun(a: array<Byte>, ghost s: seq<Byte>, i0: nat) returns (i: nat)
    requires i0 <= |s| < a.Length && a[|s|] == 0
    requires forall p :: i0 <= p < |s| ==> a[p] == s[p]
    ensures i0 <= i <= |s| && s[i..] == SkipHigh(s[i0..])
  {
    i := i0;
    while High(a[i])
      invariant i0 <= i <= |s| && SkipHigh(s[i..]) == SkipHigh(s[i0..])
      decreases |s| - i
    {
      assert s[i..][1..] == s[i + 1..];
      i := i + 1;
    }
  }

  lemma {:induction false} NoZero(s: seq<Byte>)
    requires 0 !in s
    ensures 0 !in Stripped(s)
    decreases |s|
  {
    if s != [] {
      if High(s[0]) {
        SkipIsSuffix(s[1..]);
        NoZero(SkipHigh(s[1..]));
      } else {
        NoZero(s[1..]);
      }
    }
  }

  lemma {:induction false} SkipIsSuffix(s: seq<Byte>)
    ensures var n := |s| - |SkipHigh(s)|; SkipHigh(s) == s[n..] && AllHigh(s[..n])
  {
    if s != [] && High(s[0]) {
      SkipIsSuffix(s[1..]);
      var n := |s| - |SkipHigh(s)|;
      assert s[..n] == [s[0]] + s[1..][..n - 1];
    }
  }

  // ----- what stripping is

  lemma {:induction false} SkipRun(run: seq<Byte>, rest: seq<Byte>)
    requires AllHigh(run) && (rest == [] || !High(rest[0]))
    ensures SkipHigh(run + rest) == rest
  {
    if run == [] {
      assert run + rest == rest;
    } else {
      assert (run + rest)[1..] == run[1..] + rest;
      assert forall b :: b in run[1..] ==> b in run;
      SkipRun(run[1..], rest);
    }
  }

  /** A run of high bytes, however long, becomes one underscore. */
  lemma RunBecomesOne(run: seq<Byte>, rest: seq<Byte>)
    requires run != [] && (forall i :: 0 <= i < |run| ==> run[i] >= 0x80) && (rest == [] || rest[0] < 0x80)
    ensures Stripped(run + rest) == [0x5F] + Stripped(rest)
  {
    assert (run + rest)[1..] == run[1..] + rest;
    assert forall b :: b in run[1..] ==> b in run;
    SkipRun(run[1..], rest);
  }

  /** ASCII stays as it is. */
  lemma {:induction false} PlainStays(plain: seq<Byte>, rest: seq<Byte>)
    requires forall i :: 0 <= i < |plain| ==> plain[i] < 0x80
    ensures Stripped(plain + rest) == plain + Stripped(rest)
  {
    if plain == [] {
      assert plain + rest == rest;
    } else {
      assert (plain + rest)[1..] == plain[1..] + rest;
      PlainStays(plain[1..], rest);
    }
  }

  /** A second pass changes nothing, and nothing but ASCII is left alone. */
  lemma StripTwice(s: seq<Byte>)
    ensures Stripped(Stripped(s)) == Stripped(s)
    ensures Stripped(s) == s <==> forall i :: 0 <= i < |s| ==> s[i] < 0x80
  {
    hide Stripped;
    PlainAt(Stripped(s));
    PlainStays(Stripped(s), []);
    NothingStripped([]);
    assert Stripped(s) + [] == Stripped(s);
    if forall i :: 0 <= i < |s| ==> s[i] < 0x80 {
      PlainStays(s, []);
      assert s + [] == s;
    }
  }

  lemma PlainAt(s: seq<Byte>)
    ensures AllPlain(s) ==> forall i :: 0 <= i < |s| ==> s[i] < 0x80
  {
    if AllPlain(s) {
      forall i | 0 <= i < |s| ensures s[i] < 0x80 { assert s[i] in s; }
    }
  }
}
