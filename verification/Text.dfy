/** Names, paths and playlist lines, as sequences of 16-bit code units. */
module Text {

  type Unit = u: int | 0 <= u < 0x1_0000

  type Text = seq<Unit>

  /** The code units of a literal; characters outside ASCII become '?'. */
  function Ascii(s: string): (t: Text)
    ensures |t| == |s|
  {
    seq(|s|, i requires 0 <= i < |s| => if (s[i] as int) < 0x80 then s[i] as int else 0x3F)
  }

  /** ASCII characters keep their codes. */
  lemma AsciiCodes(s: string, i: nat)
    requires i < |s| && s[i] < 128 as char
    ensures Ascii(s)[i] == s[i] as int
  {
  }

  lemma AsciiConcat(a: string, b: string)
    ensures Ascii(a + b) == Ascii(a) + Ascii(b)
  {
  }

  const BACKSLASH: Unit := 0x5C
  const SLASH: Unit := 0x2F

  /** The units before the first `stop`. */
  function Until(t: Text, stop: Unit): (r: Text)
    ensures r <= t && stop !in r && (|r| < |t| ==> t[|r|] == stop)
  {
    if t == [] || t[0] == stop then [] else [t[0]] + Until(t[1..], stop)
  }

  lemma {:induction false} UntilAll(t: Text, stop: Unit, rest: Text)
    requires stop !in t && (rest == [] || rest[0] == stop)
    ensures Until(t + rest, stop) == t
  {
    if t == [] {
      assert t + rest == rest;
    } else {
      assert (t + rest)[1..] == t[1..] + rest;
      UntilAll(t[1..], stop, rest);
    }
  }

  /** Copies a string and its terminator into the buffer. */
  method Strcpy(w: array<Unit>, at: nat, s: Text)
    requires at + |s| < w.Length
    modifies w
    ensures w[at..] == s + [0] + old(w[at + |s| + 1..])
  {
    forall i | 0 <= i < |s| {
      w[at + i] := s[i];
    }
    w[at + |s|] := 0;
  }
}
