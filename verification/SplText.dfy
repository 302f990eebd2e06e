/** Samsung .spl files as bytes: lines of little-endian UTF-16 behind a byte order mark (section 3.2 of RFC 2781). */
module SplText {
  import opened Bytes
  import opened Text
  import opened Utf16

  const MAXREAD: nat := 2048
  /** MAXREAD / 2 * 3 + 1 */
  const WSIZE: nat := 3073
  const CR: Byte := 0x0D
  const LF: Byte := 0x0A
  const BOM: Unit := 0xFEFF

  /** The counting loop over a terminated string. */
  method Ucs2Strlen(t: Text) returns (length: nat)
    requires 0 in t
    ensures length == |Until(t, 0)|
  {
    length := 0;
    while t[length] != 0
      invariant length < |t| && 0 in t[length..]
      invariant forall i :: 0 <= i < length ==> t[i] != 0
      decreases |t| - length
    {
      length := length + 1;
    }
  }

  /** Converting a terminated string strips off a byte order mark. */
  function ToText(s: seq<Byte>): Text
    requires |s| % 2 == 0
  {
    DropBom(Until(Decode(s), 0))
  }

  function DropBom(t: Text): Text {
    if t != [] && t[0] == BOM then t[1..] else t
  }

  // ----- reading

  /** `w` holds the bytes of the line being read, `lines` the lines that are complete. */
  datatype Reader = Reader(w: seq<Byte>, lines: seq<Text>)

  predicate EndsLine(w: seq<Byte>) {
    |w| >= 2 && w[|w| - 1] == 0 && w[|w| - 2] == 0 && |w| % 2 == 0
  }

  function Step(s: Reader, b: Byte): Reader {
    var w := s.w + [if b == CR || b == LF then 0 else b];
    if EndsLine(w) then Reader([], if Until(Decode(w), 0) == [] then s.lines else s.lines + [ToText(w)])
    else if |w| >= WSIZE then Reader([], s.lines)
    else Reader(w, s.lines)
  }

  function Feed(s: Reader, file: seq<Byte>): Reader {
    if file == [] then s else Step(Feed(s, file[..|file| - 1]), file[|file| - 1])
  }

  /** The lines of a file; what is left without an end of line is dropped. */
  function Parse(file: seq<Byte>): seq<Text> {
    Feed(Reader([], []), file).lines
  }

  /** Puts one byte into the line buffer and stores or drops the line when it ends. */
  method TakeByte(b: Byte, w: array<Byte>, iw: nat, lines: seq<Text>) returns (iw': nat, lines': seq<Text>)
    requires w.Length == WSIZE && iw < WSIZE
    modifies w
    ensures iw' < WSIZE && Reader(w[..iw'], lines') == Step(Reader(old(w[..iw]), lines), b)
  {
    hide Until, Decode, ToText;
    ghost var before := w[..iw];
    w[iw] := if b == CR || b == LF then 0 else b;
    iw', lines' := iw + 1, lines;
    assert w[..iw'] == before + [w[iw]];
    if iw' >= 2 && w[iw' - 1] == 0 && w[iw' - 2] == 0 && iw' % 2 == 0 {
      if Until(Decode(w[..iw']), 0) == [] {
        iw' := 0;
        return;
      }
      lines' := lines + [ToText(w[..iw'])];
      iw' := 0;
    }
    if iw' >= WSIZE {
      iw' := 0;
    }
  }

  /** Works through a full or partly filled read buffer; an incomplete line stays in the line buffer. */
  method TakeBuffer(t: array<Byte>, rdcnt: nat, w: array<Byte>, iw0: nat, lines0: seq<Text>, ghost s: Reader)
    returns (iw: nat, lines: seq<Text>)
    requires rdcnt <= t.Length && w.Length == WSIZE && iw0 < WSIZE && t != w
    requires s == Reader(w[..iw0], lines0)
    modifies w
    ensures iw < WSIZE && Reader(w[..iw], lines) == Feed(s, t[..rdcnt])
  {
    iw, lines := iw0, lines0;
    var it: nat := 0;
    while it < rdcnt
      invariant it <= rdcnt && iw < WSIZE
      invariant Reader(w[..iw], lines) == Feed(s, t[..it])
    {
      assert t[..it + 1][..it] == t[..it];
      iw, lines := TakeByte(t[it], w, iw, lines);
      it := it + 1;
    }
  }

  lemma {:induction false} FeedConcat(s: Reader, a: seq<Byte>, b: seq<Byte>)
    ensures Feed(s, a + b) == Feed(Feed(s, a), b)
    decreases |b|
  {
    if b == [] {
      assert a + b == a;
    } else {
      assert (a + b)[..|a + b| - 1] == a + b[..|b| - 1];
      FeedConcat(s, a, b[..|b| - 1]);
    }
  }

  lemma FeedNothing(s: Reader, file: seq<Byte>)
    requires file == []
    ensures Feed(s, file) == s
  {
  }

  /**
   Reads a file in whatever pieces `read` delivers: `chunks` are the sizes it returns, cut to what
   is there and fits the buffer, and to at least one byte.
   */
  method ReadIntoSplText(file: seq<Byte>, chunks: seq<nat>) returns (lines: seq<Text>)
    ensures lines == Parse(file)
  {
    hide Feed, Step;
    var t := new Byte[MAXREAD];
    var w := new Byte[WSIZE];
    var iw: nat, offset: nat, n: nat := 0, 0, 0;
    lines := [];
    FeedNothing(Reader([], []), w[..iw]);
    while offset < |file|
      invariant offset <= |file| && iw < WSIZE
      invariant Feed(Reader([], []), file[..offset]) == Reader(w[..iw], lines)
      decreases |file| - offset
    {
      var rdcnt := Read(file, offset, if n < |chunks| then chunks[n] else MAXREAD, t);
      assert file[..offset] + file[offset..offset + rdcnt] == file[..offset + rdcnt];
      FeedConcat(Reader([], []), file[..offset], t[..rdcnt]);
      iw, lines := TakeBuffer(t, rdcnt, w, iw, lines, Reader(w[..iw], lines));
      offset, n := offset + rdcnt, n + 1;
    }
    assert file[..|file|] == file;
  }

  /** One `read` that asks for a full buffer. */
  method Read(file: seq<Byte>, offset: nat, chunk: nat, t: array<Byte>) returns (rdcnt: nat)
    requires offset < |file| && t.Length > 0
    modifies t
    ensures 1 <= rdcnt <= t.Length && offset + rdcnt <= |file|
    ensures t[..rdcnt] == file[offset..offset + rdcnt]
  {
    rdcnt := if chunk < 1 then 1 else chunk;
    if rdcnt > t.Length {
      rdcnt := t.Length;
    }
    if rdcnt > |file| - offset {
      rdcnt := |file| - offset;
    }
    forall i | 0 <= i < rdcnt {
      t[i] := file[offset + i];
    }
  }

  // ----- writing

  const EOL: seq<Byte> := [CR, 0, LF, 0]

  function Body(lines: seq<Text>): seq<Byte> {
    if lines == [] then [] else Body(lines[..|lines| - 1]) + Encode(Until(lines[|lines| - 1], 0)) + EOL
  }

  function Print(lines: seq<Text>): seq<Byte> {
    [0xFF, 0xFE] + Body(lines)
  }

  method WriteFromSplText(lines: seq<Text>) returns (file: seq<Byte>)
    ensures file == Print(lines)
  {
    file := [0xFF, 0xFE];
    for i := 0 to |lines|
      invariant file == Print(lines[..i])
    {
      assert lines[..i + 1][..i] == lines[..i];
      file := file + Encode(Until(lines[i], 0));
      file := file + EOL;
    }
    assert lines[..|lines|] == lines;
  }

  // ----- what is written is read back

  /** No byte of the line reads as an end of line, and the line holds no terminator. */
  predicate Clean(t: Text) {
    forall u :: u in t ==> u != 0 && Lo(u) != CR && Lo(u) != LF && Hi(u) != CR && Hi(u) != LF
  }

  /** Lines that the fixed conversion and line buffers hold. */
  predicate FitsBuffers(t: Text) {
    |t| < MAXREAD / 2
  }

  /** The lines that come back: empty ones are dropped, but not the first, which the byte order mark keeps alive. */
  function Kept(lines: seq<Text>): seq<Text> {
    if |lines| <= 1 then lines
    else
      var last := lines[|lines| - 1];
      Kept(lines[..|lines| - 1]) + if last == [] then [] else [DropBom(last)]
  }

  lemma ZeroEnds(t: Text)
    requires 0 !in t
    ensures Until(t, 0) == t && Until(t + [0], 0) == t
  {
    UntilAll(t, 0, [0]);
    UntilAll(t, 0, []);
    assert t + [] == t;
  }

  /** Two more bytes that do not end the line. */
  lemma StepTwo(w: seq<Byte>, lo: Byte, hi: Byte, lines: seq<Text>)
    requires |w| % 2 == 0 && |w| + 2 < WSIZE
    requires lo != CR && lo != LF && hi != CR && hi != LF && (lo != 0 || hi != 0)
    ensures Step(Step(Reader(w, lines), lo), hi) == Reader(w + [lo, hi], lines)
  {
    hide Until, Decode, ToText;
    Parity(|w|);
    var w1 := w + [lo];
    assert Step(Reader(w, lines), lo) == Reader(w1, lines);
    assert w1 + [hi] == w + [lo, hi];
  }

  lemma CleanUnit(u: Unit)
    requires Clean([u])
    ensures Lo(u) != CR && Lo(u) != LF && Hi(u) != CR && Hi(u) != LF && (Lo(u) != 0 || Hi(u) != 0)
  {
    hide Lo, Hi;
    assert u in [u];
    UnitBytes(u);
  }

  lemma StepUnit(pre: Text, u: Unit, lines: seq<Text>)
    requires Clean([u]) && 2 * |pre| + 2 < WSIZE
    ensures Step(Step(Reader(Encode(pre), lines), Lo(u)), Hi(u)) == Reader(Encode(pre + [u]), lines)
  {
    hide Step, Encode, Lo, Hi, Clean;
    CleanUnit(u);
    EncodeNext(pre, u);
    EvenTwice(|pre|);
    StepTwo(Encode(pre), Lo(u), Hi(u), lines);
  }

  /** The units of a line collect in the buffer. */
  lemma {:induction false} FeedUnits(pre: Text, t: Text, lines: seq<Text>)
    requires Clean(t) && 2 * |pre + t| < WSIZE
    ensures Feed(Reader(Encode(pre), lines), Encode(t)) == Reader(Encode(pre + t), lines)
    decreases |t|
  {
    hide Step;
    if t == [] {
      assert pre + t == pre;
    } else {
      var init, u := t[..|t| - 1], t[|t| - 1];
      assert t == init + [u] && u in t;
      assert Clean(init) by {
        assert forall v :: v in init ==> v in t;
      }
      FeedUnits(pre, init, lines);
      EncodeConcat(init, [u]);
      EncodeOne(u);
      FeedTwo(Reader(Encode(pre), lines), Encode(init), Lo(u), Hi(u));
      StepUnit(pre + init, u, lines);
      assert pre + init + [u] == pre + t;
    }
  }

  lemma FeedTwo(s: Reader, a: seq<Byte>, b: Byte, c: Byte)
    ensures Feed(s, a + [b, c]) == Step(Step(Feed(s, a), b), c)
  {
    assert (a + [b, c])[..|a| + 1] == a + [b];
    assert (a + [b])[..|a|] == a;
  }

  /** A carriage return closes the line; the line feed makes an empty one, which is dropped. */
  lemma FeedEol(t: Text, lines: seq<Text>)
    requires 0 !in t && 2 * |t| + 2 < WSIZE
    ensures Feed(Reader(Encode(t), lines), EOL) == Reader([], if t == [] then lines else lines + [DropBom(t)])
  {
    hide Step;
    var s := Reader(Encode(t), lines);
    var s' := Reader([], if t == [] then lines else lines + [DropBom(t)]);
    FeedTwo(s, [], CR, 0);
    FeedTwo(s, [CR, 0], LF, 0);
    assert [] + [CR, 0] == [CR, 0] && [CR, 0] + [LF, 0] == EOL;
    StepClose(t, CR, lines);
    StepClose([], LF, s'.lines);
    assert Encode([]) == [];
  }

  /** A carriage return or line feed after whole units closes the line, which reads as `t`. */
  lemma StepEol(w: seq<Byte>, b: Byte, lines: seq<Text>, t: Text)
    requires |w| % 2 == 0 && |w| + 2 < WSIZE && (b == CR || b == LF)
    requires EndsLine(w + [0, 0]) && t == Until(Decode(w + [0, 0]), 0)
    ensures Step(Step(Reader(w, lines), b), 0) == Reader([], if t == [] then lines else lines + [DropBom(t)])
  {
    hide Step, EndsLine, Until, Decode, DropBom;
    StepHalf(w, b, lines);
    var w2 := w + [0, 0];
    assert w2 == w + [0] + [0];
    StepEnd(w2, Reader(w + [0], lines));
  }

  /** After an odd number of bytes no line ends. */
  lemma StepHalf(w: seq<Byte>, b: Byte, lines: seq<Text>)
    requires |w| % 2 == 0 && |w| + 2 < WSIZE && (b == CR || b == LF)
    ensures Step(Reader(w, lines), b) == Reader(w + [0], lines)
  {
    hide Until, Decode, ToText;
    Parity(|w|);
  }

  lemma StepEnd(w: seq<Byte>, s: Reader)
    requires w == s.w + [0] && EndsLine(w)
    ensures Step(s, 0) == Reader([], if Until(Decode(w), 0) == [] then s.lines else s.lines + [ToText(w)])
  {
    hide Until, Decode, ToText;
  }

  lemma StepClose(t: Text, b: Byte, lines: seq<Text>)
    requires 0 !in t && 2 * |t| + 2 < WSIZE && (b == CR || b == LF)
    ensures Step(Step(Reader(Encode(t), lines), b), 0) == Reader([], if t == [] then lines else lines + [DropBom(t)])
  {
    hide Step, Encode, EndsLine, Until, Decode, DropBom;
    EndOfLine(Encode(t));
    EncodeZero(t);
    DecodeEncode(t + [0]);
    ZeroEnds(t);
    StepEol(Encode(t), b, lines, t);
  }

  lemma EncodeZero(t: Text)
    ensures Encode(t + [0]) == Encode(t) + [0, 0]
  {
    EncodeNext(t, 0);
  }

  lemma EndOfLine(w: seq<Byte>)
    requires |w| % 2 == 0
    ensures EndsLine(w + [0, 0])
  {
    Parity(|w|);
  }

  lemma FeedLine(pre: Text, t: Text, lines: seq<Text>)
    requires Clean(t) && 0 !in pre && 2 * |pre + t| + 2 < WSIZE
    ensures Feed(Reader(Encode(pre), lines), Encode(Until(t, 0)) + EOL)
         == Reader([], if pre + t == [] then lines else lines + [DropBom(pre + t)])
  {
    ZeroEnds(t);
    FeedConcat(Reader(Encode(pre), lines), Encode(t), EOL);
    FeedUnits(pre, t, lines);
    FeedEol(pre + t, lines);
  }

  /** Reading what was written gives the lines that were kept, for any pieces the file is read in. */
  lemma {:induction false} PrintParse(lines: seq<Text>)
    requires forall t :: t in lines ==> Clean(t) && FitsBuffers(t)
    ensures Feed(Reader([], []), Print(lines)) ==
      if lines == [] then Reader([0xFF, 0xFE], [])
      else Reader([], Kept(lines))
    decreases |lines|
  {
    hide Feed, Print, Encode, Until, Clean;
    if lines == [] {
      FeedBom();
    } else {
      var init, last := lines[..|lines| - 1], lines[|lines| - 1];
      assert last in lines;
      PrintNext(init, last);
      assert lines == init + [last];
      PrintParse(init);
      FeedConcat(Reader([], []), Print(init), Encode(Until(last, 0)) + EOL);
      Prefixes();
      if init == [] {
        FeedLine([BOM], last, []);
        assert ([BOM] + last)[1..] == last;
      } else {
        FeedLine([], last, Kept(init));
        assert [] + last == last;
      }
    }
  }

  lemma PrintNext(init: seq<Text>, last: Text)
    ensures Print(init + [last]) == Print(init) + (Encode(Until(last, 0)) + EOL)
  {
    var lines := init + [last];
    assert lines[..|lines| - 1] == init;
  }

  lemma Prefixes()
    ensures Encode([BOM]) == [0xFF, 0xFE] && Encode([]) == []
  {
    EncodeOne(BOM);
  }

  lemma FeedBom()
    ensures Feed(Reader([], []), Print([])) == Reader([0xFF, 0xFE], [])
  {
    hide Step, Feed;
    var none := Reader([], []);
    FeedTwo(none, [], 0xFF, 0xFE);
    FeedNothing(none, []);
    StepTwo([], 0xFF, 0xFE, []);
    assert [] + [0xFF, 0xFE] == [0xFF, 0xFE] == Print([]);
  }
}
