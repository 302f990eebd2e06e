/** Exactly which lines survive being written and read: the reader takes every byte 0x0D or 0x0A for an end of line. */
module SplExact {
  import opened Bytes
  import opened SplText
  import opened Text
  import opened Utf16

  predicate IsEol(b: Byte) {
    b == CR || b == LF
  }

  predicate NoEol(w: seq<Byte>) {
    forall b :: b in w ==> !IsEol(b)
  }

  predicate UnitOK(u: Unit) {
    !IsEol(Lo(u)) && !IsEol(Hi(u))
  }

  lemma {:induction false} DecodedUnits(w: seq<Byte>)
    requires NoEol(w) && |w| % 2 == 0
    ensures forall u :: u in Decode(w) ==> UnitOK(u)
  {
    hide UnitOK;
    if w != [] {
      assert w[0] in w && w[1] in w;
      JoinedOK(w[0], w[1]);
      assert forall b :: b in w[2..] ==> b in w;
      DecodedUnits(w[2..]);
    }
  }

  lemma JoinedOK(lo: Byte, hi: Byte)
    requires !IsEol(lo) && !IsEol(hi)
    ensures UnitOK(Join(lo, hi))
  {
    JoinBytes(lo, hi);
  }

  lemma UnitsAreClean(t: Text)
    ensures Clean(t) <==> 0 !in t && forall u :: u in t ==> UnitOK(u)
  {
    hide Lo, Hi;
  }

  lemma LineIsClean(w: seq<Byte>)
    requires NoEol(w) && |w| % 2 == 0
    ensures Clean(ToText(w))
  {
    hide Until, Decode, UnitOK, Clean;
    DecodedUnits(w);
    var t := Until(Decode(w), 0);
    assert forall u :: u in t ==> u in Decode(w);
    assert forall u :: u in DropBom(t) ==> u in t;
    UnitsAreClean(DropBom(t));
  }

  /** What the reader holds: no end-of-line byte in its buffer, and lines without any. */
  ghost predicate Tidied(s: Reader) {
    NoEol(s.w) && forall t :: t in s.lines ==> Clean(t)
  }

  lemma StepTidies(s: Reader, b: Byte)
    requires Tidied(s)
    ensures Tidied(Step(s, b))
  {
    hide Until, Decode, Clean, ToText;
    var w := s.w + [if b == CR || b == LF then 0 else b];
    assert NoEol(w);
    if EndsLine(w) {
      LineIsClean(w);
    }
  }

  lemma {:induction false} FeedTidies(s: Reader, file: seq<Byte>)
    requires Tidied(s)
    ensures Tidied(Feed(s, file))
    decreases |file|
  {
    hide Step, Tidied;
    if file != [] {
      FeedTidies(s, file[..|file| - 1]);
      StepTidies(Feed(s, file[..|file| - 1]), file[|file| - 1]);
    }
  }

  /** No line that is read, from any file, holds a terminator or a unit with an end-of-line byte. */
  lemma ReadLinesClean(file: seq<Byte>)
    ensures forall t :: t in Parse(file) ==> Clean(t)
  {
    hide Feed, Clean;
    FeedTidies(Reader([], []), file);
  }

  /** A line that is not clean is kept as such. */
  lemma {:induction false} KeptBad(lines: seq<Text>, t: Text) returns (kept: Text)
    requires t in lines && !Clean(t)
    ensures kept in Kept(lines) && !Clean(kept)
    decreases |lines|
  {
    if |lines| <= 1 {
      kept := t;
    } else {
      var last := lines[|lines| - 1];
      if t == last {
        kept := DropBom(t);
        DropBomBad(t);
      } else {
        kept := KeptBad(lines[..|lines| - 1], t);
      }
    }
  }

  lemma DropBomBad(t: Text)
    requires !Clean(t)
    ensures t != [] && !Clean(DropBom(t))
  {
    var u :| u in t && !(u != 0 && Lo(u) != CR && Lo(u) != LF && Hi(u) != CR && Hi(u) != LF);
    assert u != BOM;
    assert u in DropBom(t);
  }

  /**
   The lines written come back, up to empty ones and byte order marks, if and only if no unit of
   theirs is zero or has a byte 0x0D or 0x0A. U+010D is such a unit.
   */
  lemma ReadBackExactly(lines: seq<Text>)
    requires forall t :: t in lines ==> FitsBuffers(t)
    ensures Parse(Print(lines)) == Kept(lines) <==> forall t :: t in lines ==> Clean(t)
  {
    hide Feed, Clean, Kept, Print;
    if forall t :: t in lines ==> Clean(t) {
      PrintParse(lines);
      if lines == [] {
        KeptNone();
      }
    } else {
      var t :| t in lines && !Clean(t);
      var kept := KeptBad(lines, t);
      ReadLinesClean(Print(lines));
    }
  }

  lemma KeptNone()
    ensures Kept([]) == []
  {
  }

  /** In particular for one line. */
  lemma LineExactly(t: Text)
    requires FitsBuffers(t)
    ensures Parse(Print([t])) == [t] <==> Clean(t)
  {
    hide Feed, Clean, Print;
    ReadBackExactly([t]);
    assert t in [t];
  }

  // ----- byte by byte

  /** The units before a terminator, low byte first. */
  function UnitBytesOf(t: Text): seq<Byte> {
    if t == [] || t[0] == 0 then [] else [t[0] % 0x100, t[0] / 0x100] + UnitBytesOf(t[1..])
  }

  /** Lines with the end-of-line bytes behind each. */
  function LineBytes(lines: seq<Text>): seq<Byte> {
    if lines == [] then [] else UnitBytesOf(lines[0]) + [0x0D, 0, 0x0A, 0] + LineBytes(lines[1..])
  }

  lemma {:induction false} UnitsWritten(t: Text)
    ensures Encode(Until(t, 0)) == UnitBytesOf(t)
  {
    if t != [] && t[0] != 0 {
      UnitsWritten(t[1..]);
      assert Until(t, 0)[1..] == Until(t[1..], 0);
    }
  }

  lemma {:induction false} LinesConcat(a: seq<Text>, b: seq<Text>)
    ensures LineBytes(a + b) == LineBytes(a) + LineBytes(b)
  {
    hide UnitBytesOf;
    if a == [] {
      assert a + b == b;
    } else {
      assert (a + b)[1..] == a[1..] + b;
      LinesConcat(a[1..], b);
    }
  }

  lemma OneLineBytes(t: Text)
    ensures LineBytes([t]) == UnitBytesOf(t) + [0x0D, 0, 0x0A, 0]
  {
    assert [t][1..] == [];
  }

  lemma {:induction false} BodyWritten(lines: seq<Text>)
    ensures Body(lines) == LineBytes(lines)
  {
    hide UnitBytesOf, LineBytes, Encode, Until;
    if lines == [] {
      NoLineBytes();
    } else {
      var init, last := lines[..|lines| - 1], lines[|lines| - 1];
      assert lines == init + [last];
      BodyWritten(init);
      LinesConcat(init, [last]);
      OneLineBytes(last);
      UnitsWritten(last);
    }
  }

  lemma NoLineBytes()
    ensures LineBytes([]) == []
  {
  }

  /** A file byte by byte: the mark FF FE, then each line up to a terminator, and 0D 00 0A 00 behind it. */
  lemma PrintWritten(lines: seq<Text>)
    ensures Print(lines) == [0xFF, 0xFE] + LineBytes(lines)
  {
    BodyWritten(lines);
  }

  /** The line buffer takes 3072 bytes; the next one, unless it ends the line, drops them all. */
  lemma {:induction false} LongLineDropped(bytes: seq<Byte>, lines: seq<Text>)
    requires |bytes| <= 3073
    requires forall i :: 0 <= i < |bytes| ==> bytes[i] != 0 && bytes[i] != 0x0D && bytes[i] != 0x0A
    ensures Feed(Reader([], lines), bytes) == Reader(if |bytes| == 3073 then [] else bytes, lines)
  {
    hide Step;
    if bytes != [] {
      var n := |bytes| - 1;
      LongLineDropped(bytes[..n], lines);
      ByteTaken(bytes[..n], bytes[n], lines);
      assert bytes[..n] + [bytes[n]] == bytes;
    }
  }

  lemma ByteTaken(w: seq<Byte>, b: Byte, lines: seq<Text>)
    requires b != 0 && b != 0x0D && b != 0x0A
    ensures Step(Reader(w, lines), b) == Reader(if |w| >= 3072 then [] else w + [b], lines)
  {
    hide Until, Decode, ToText;
  }

  /** Which units are harmless, written out. */
  lemma CleanWritten(t: Text)
    ensures Clean(t) <==> forall u :: u in t ==>
      u != 0 && u % 0x100 != 0x0D && u % 0x100 != 0x0A && u / 0x100 != 0x0D && u / 0x100 != 0x0A
  {
  }

  /** `kept` are the lines at the positions `at`: the first of all, and those that are not empty. */
  ghost predicate Survive(kept: seq<Text>, lines: seq<Text>, at: seq<nat>) {
    && |at| == |kept|
    && (forall i :: 0 <= i < |at| ==> at[i] < |lines| && (at[i] == 0 || lines[at[i]] != []))
    && (forall i, j :: 0 <= i < j < |at| ==> at[i] < at[j])
    && (forall k: nat :: k < |lines| && (k == 0 || lines[k] != []) ==> k in at)
    && forall i :: 0 <= i < |at| ==> kept[i] == Unmarked(lines[at[i]], at[i])
  }

  /** A line without the byte order mark it may begin with, which only the first one keeps. */
  function Unmarked(line: Text, position: nat): Text {
    if position > 0 && line != [] && line[0] == 0xFEFF then line[1..] else line
  }

  lemma {:induction false} KeptSurvive(lines: seq<Text>) returns (at: seq<nat>)
    ensures Survive(Kept(lines), lines, at)
    decreases |lines|
  {
    if |lines| <= 1 {
      at := if lines == [] then [] else [0];
    } else {
      var n := |lines| - 1;
      at := KeptSurvive(lines[..n]);
      SurviveMore(Kept(lines[..n]), lines, at);
      if lines[n] != [] {
        at := at + [n];
      }
    }
  }

  lemma SurviveMore(kept: seq<Text>, lines: seq<Text>, at: seq<nat>)
    requires |lines| > 1 && Survive(kept, lines[..|lines| - 1], at)
    ensures var last := lines[|lines| - 1];
      if last == [] then Survive(kept, lines, at) else Survive(kept + [DropBom(last)], lines, at + [|lines| - 1])
  {
    hide Unmarked;
    var n := |lines| - 1;
    var init, last, more := lines[..n], lines[n], at + [n];
    LastUnmarked(last, n);
    assert forall k: nat :: k < n ==> init[k] == lines[k];
    assert forall k: nat :: k in at ==> k in more;
    assert more[|at|] == n;
  }

  lemma LastUnmarked(line: Text, position: nat)
    requires position > 0
    ensures DropBom(line) == Unmarked(line, position)
  {
  }
}
