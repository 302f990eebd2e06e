/** Unsigned numbers as the printf family prints and the scanf family reads them. */
module Decimal {
  import opened Text

  const ZERO: Unit := 0x30

  predicate IsDigit(u: Unit) { 0x30 <= u <= 0x39 }

  function Digits(n: nat): (t: Text)
    ensures t != [] && forall u :: u in t ==> IsDigit(u)
  {
    if n < 10 then [0x30 + n] else Digits(n / 10) + [0x30 + n % 10]
  }

  function Value(t: Text): nat
    requires forall u :: u in t ==> IsDigit(u)
  {
    if t == [] then 0
    else
      var u: int := t[|t| - 1];
      assert IsDigit(t[|t| - 1]);
      10 * Value(t[..|t| - 1]) + (u - 0x30)
  }

  lemma {:induction false} ValueDigits(n: nat)
    ensures Value(Digits(n)) == n
  {
    if n < 10 {
      OneDigit(n);
    } else {
      ValueDigits(n / 10);
      assert Digits(n)[..|Digits(n)| - 1] == Digits(n / 10);
    }
  }

  lemma OneDigit(n: nat)
    requires n < 10
    ensures Value([0x30 + n]) == n
  {
    assert [0x30 + n][..0] == [];
  }

  /** Two numbers never print alike. */
  lemma DigitsInjective(m: nat, n: nat)
    requires Digits(m) == Digits(n)
    ensures m == n
  {
    ValueDigits(m);
    ValueDigits(n);
  }

  /** The highest digit first, no leading zero. */
  lemma HighestFirst(n: nat)
    ensures Digits(n)[|Digits(n)| - 1] == 0x30 + n % 10
    ensures n >= 10 ==> Digits(n)[..|Digits(n)| - 1] == Digits(n / 10)
    ensures Digits(n)[0] == 0x30 <==> n == 0
  {
    if n >= 10 {
      HighestFirst(n / 10);
    }
  }

  lemma PrintedNumbers()
    ensures PrintInt(0) == Ascii("0") && PrintInt(1) == Ascii("1") && PrintInt(2) == Ascii("2")
    ensures PrintInt(1234) == Ascii("1234") && PrintInt(-10) == Ascii("-10")
  {
    assert Digits(1) == [0x31];
    assert Digits(12) == [0x31, 0x32];
    assert Digits(123) == [0x31, 0x32, 0x33];
    assert Digits(1234) == [0x31, 0x32, 0x33, 0x34];
  }

  lemma OneMoreDigit(n: nat, m: nat)
    requires m == n / 10
    ensures |Digits(n)| == if n < 10 then 1 else |Digits(m)| + 1
  {
  }

  lemma FourDigits(n: nat)
    ensures |Digits(n)| <= 4 <==> n <= 9999
  {
    OneMoreDigit(n, n / 10);
    OneMoreDigit(n / 10, n / 10 / 10);
    OneMoreDigit(n / 10 / 10, n / 10 / 10 / 10);
    OneMoreDigit(n / 10 / 10 / 10, n / 10 / 10 / 10 / 10);
  }

  /** The digits at the start of `t`. */
  function Leading(t: Text): (r: Text)
    ensures r <= t && forall u :: u in r ==> IsDigit(u)
    ensures |r| < |t| ==> !IsDigit(t[|r|])
  {
    if t == [] || !IsDigit(t[0]) then [] else [t[0]] + Leading(t[1..])
  }

  lemma {:induction false} LeadingDigits(digits: Text, rest: Text)
    requires forall u :: u in digits ==> IsDigit(u)
    requires rest == [] || !IsDigit(rest[0])
    ensures Leading(digits + rest) == digits
  {
    if digits == [] {
      assert digits + rest == rest;
    } else {
      assert (digits + rest)[1..] == digits[1..] + rest;
      LeadingDigits(digits[1..], rest);
    }
  }

  // ----- signed numbers

  const MINUS: Unit := 0x2D
  const PLUS: Unit := 0x2B

  function PrintInt(i: int): Text {
    if i < 0 then [MINUS] + Digits(-i) else Digits(i)
  }

  predicate IsSpace(u: Unit) {
    u == 0x20 || 0x09 <= u <= 0x0D
  }

  function SkipSpace(t: Text): Text {
    if t != [] && IsSpace(t[0]) then SkipSpace(t[1..]) else t
  }

  datatype Scanned = Nothing | Number(value: int, rest: Text)

  /** The %d conversion of scanf: white space, a sign, digits. */
  function ScanInt(t: Text): Scanned {
    var s := SkipSpace(t);
    if s != [] && s[0] == MINUS then
      var r := ScanDigits(s[1..]);
      if r.Number? then Number(-r.value, r.rest) else Nothing
    else if s != [] && s[0] == PLUS then ScanDigits(s[1..])
    else ScanDigits(s)
  }

  function ScanDigits(t: Text): Scanned {
    var digits := Leading(t);
    if digits == [] then Nothing else Number(Value(digits), t[|digits|..])
  }

  lemma ScanDigitsPrinted(n: nat, rest: Text)
    requires rest == [] || !IsDigit(rest[0])
    ensures ScanDigits(Digits(n) + rest) == Number(n, rest)
  {
    hide Digits, Value, Leading;
    LeadingDigits(Digits(n), rest);
    ValueDigits(n);
    assert (Digits(n) + rest)[|Digits(n)|..] == rest;
  }

  lemma PrintIntStart(i: int)
    ensures PrintInt(i) != [] && (IsDigit(PrintInt(i)[0]) || PrintInt(i)[0] == MINUS)
  {
    hide Digits;
    if i >= 0 {
      assert Digits(i)[0] in Digits(i);
    }
  }

  /** What is printed is scanned, up to the first unit that is no digit. */
  lemma ScanPrinted(i: int, rest: Text)
    requires rest == [] || !IsDigit(rest[0])
    ensures ScanInt(PrintInt(i) + rest) == Number(i, rest)
  {
    hide Digits, ScanDigits;
    var t := PrintInt(i) + rest;
    PrintIntStart(i);
    assert t[0] == PrintInt(i)[0];
    assert SkipSpace(t) == t;
    ScanDigitsPrinted(if i < 0 then -i else i, rest);
    if i < 0 {
      assert t[1..] == Digits(-i) + rest;
    } else {
      assert Digits(i)[0] in Digits(i);
    }
  }
}
