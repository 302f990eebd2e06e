/** The descriptor in which a device lists its extensions, and the list that is read from it. */
module Extensions {
  import opened Decimal
  import opened Text
  import opened Wrappers

  const SEMICOLON: Unit := 0x3B
  const COLON: Unit := 0x3A
  const SPACE: Unit := 0x20
  const POINT: Unit := 0x2E

  datatype Extension = Extension(name: Text, major: int, minor: int)

  /** MAJOR.MINOR, or just MAJOR. */
  function ScanVersion(t: Text): Option<(int, int)> {
    var first := ScanInt(t);
    if first.Nothing? then None
    else if first.rest != [] && first.rest[0] == POINT && ScanInt(first.rest[1..]).Number? then
      Some((first.value, ScanInt(first.rest[1..]).value))
    else Some((first.value, 0))
  }

  /** The extension that one element describes, if it does. */
  function Element(element: Text): seq<Extension> {
    var name := Until(element, COLON);
    if |name| == |element| then []
    else
      var version := ScanVersion(element[|name| + 1..]);
      if version.None? then [] else [Extension(name, version.value.0, version.value.1)]
  }

  function SkipBlanks(t: Text): Text {
    if t != [] && t[0] == SPACE then SkipBlanks(t[1..]) else t
  }

  /** The extensions of all elements that end in a semicolon. */
  function Described(desc: Text): seq<Extension>
    decreases |desc|
  {
    var segment := Until(desc, SEMICOLON);
    if |segment| == |desc| then [] else Element(SkipBlanks(segment)) + Described(desc[|segment| + 1..])
  }

  /** Blanks at the start of what is left do not matter. */
  lemma {:induction false} DescribedBlanks(desc: Text)
    ensures Described(SkipBlanks(desc)) == Described(desc)
  {
    hide Described;
    if desc != [] && desc[0] == SPACE {
      BlankOnce(desc[1..]);
      assert [SPACE] + desc[1..] == desc;
      DescribedBlanks(desc[1..]);
    }
  }

  lemma BlankOnce(tail: Text)
    ensures Described([SPACE] + tail) == Described(tail)
  {
    hide Described, Element;
    var segment := Until(tail, SEMICOLON);
    if |segment| == |tail| {
      assert segment == tail;
      Unterminated(tail);
      Unterminated([SPACE] + tail);
    } else {
      var rest := tail[|segment| + 1..];
      assert tail == segment + [SEMICOLON] + rest;
      assert [SPACE] + tail == ([SPACE] + segment) + [SEMICOLON] + rest;
      DescribedStep(segment, rest);
      DescribedStep([SPACE] + segment, rest);
      assert ([SPACE] + segment)[1..] == segment;
    }
  }

  lemma {:induction false} NoBlanks(t: Text)
    ensures SkipBlanks(t) == [] || SkipBlanks(t)[0] != SPACE
  {
    if t != [] && t[0] == SPACE {
      NoBlanks(t[1..]);
    }
  }

  /** What is left to read from position `at`, which may be one past the end. */
  function Left(desc: Text, at: nat): seq<Extension> {
    if at <= |desc| then Described(desc[at..]) else []
  }

  lemma NothingLeft(desc: Text, at: nat)
    requires at >= |desc|
    ensures Left(desc, at) == []
  {
  }

  lemma DescribedStep(segment: Text, rest: Text)
    requires SEMICOLON !in segment
    ensures Described(segment + [SEMICOLON] + rest) == Element(SkipBlanks(segment)) + Described(rest)
  {
    hide Element, SkipBlanks;
    var desc := segment + [SEMICOLON] + rest;
    assert desc == segment + ([SEMICOLON] + rest);
    UntilAll(segment, SEMICOLON, [SEMICOLON] + rest);
    assert desc[|segment| + 1..] == rest;
  }

  lemma ElementAt(desc: Text, start: nat, end: nat)
    requires start <= end < |desc| && desc[end] == SEMICOLON && SEMICOLON !in desc[start..end]
    requires desc[start] != SPACE
    ensures Described(desc[start..]) == Element(desc[start..end]) + Left(desc, end + 1)
  {
    hide Described, Element;
    assert desc[start..] == desc[start..end] + [SEMICOLON] + desc[end + 1..];
    DescribedStep(desc[start..end], desc[end + 1..]);
  }

  class MtpDevice {
    var extensions: seq<Extension>

    /** The two cursors go through the descriptor once; `end` leaves it by one step. */
    method ParseExtensionDescriptor(descriptor: Option<Text>)
      modifies this
      ensures extensions == old(extensions) + if descriptor.Some? then Described(descriptor.value) else []
    {
      if descriptor.None? {
        return;
      }
      var desc := descriptor.value;
      var start, end := 0, 0;
      assert Left(desc, 0) == Described(desc) by {
        assert desc[0..] == desc;
      }
      hide Left;
      while end < |desc|
        invariant start == end <= |desc| + 1
        invariant extensions + Left(desc, start) == old(extensions) + Described(desc)
        decreases |desc| + 1 - end
      {
        end := TakeElement(desc, start);
        end := end + 1;
        start := end;
      }
      NothingLeft(desc, start);
    }

    /** Finds the end of the next element and stores what it describes. */
    method TakeElement(desc: Text, from: nat) returns (end: nat)
      requires from < |desc|
      modifies this
      ensures from <= end <= |desc|
      ensures extensions + Left(desc, end + 1) == old(extensions) + Left(desc, from)
    {
      hide Described, Element, SkipBlanks;
      var start := SkipSpaces(desc, from);
      DescribedBlanks(desc[from..]);
      NoBlanks(desc[from..]);
      end := start;
      while end < |desc| && desc[end] != SEMICOLON
        invariant start <= end <= |desc| && SEMICOLON !in desc[start..end]
      {
        end := end + 1;
      }
      if end < |desc| {
        StoreElement(desc[start..end]);
        ElementAt(desc, start, end);
      } else {
        assert desc[start..] == desc[start..end];
        Unterminated(desc[start..]);
      }
    }

    static method SkipSpaces(desc: Text, at: nat) returns (start: nat)
      requires at <= |desc|
      ensures at <= start <= |desc| && desc[start..] == SkipBlanks(desc[at..])
    {
      start := at;
      while start < |desc| && desc[start] == SPACE
        invariant at <= start <= |desc| && SkipBlanks(desc[start..]) == SkipBlanks(desc[at..])
      {
        start := start + 1;
      }
    }

    /** Appends the extension that the element describes. */
    method StoreElement(element: Text)
      modifies this
      ensures extensions == old(extensions) + Element(element)
    {
      var i := 0;
      while i < |element| && element[i] != COLON
        invariant i <= |element| && COLON !in element[..i]
      {
        i := i + 1;
      }
      assert element == element[..i] + element[i..];
      UntilAll(element[..i], COLON, element[i..]);
      if i < |element| {
        var version := ScanVersion(element[i + 1..]);
        if version.Some? {
          extensions := extensions + [Extension(element[..i], version.value.0, version.value.1)];
        }
      }
    }
  }

  // ----- what is printed is read back

  function Body(e: Extension): Text {
    e.name + [COLON, SPACE] + PrintInt(e.major) + [POINT] + PrintInt(e.minor)
  }

  function PrintAll(list: seq<Extension>): Text {
    if list == [] then [] else Body(list[0]) + [SEMICOLON, SPACE] + PrintAll(list[1..])
  }

  predicate Plain(name: Text) {
    COLON !in name && SEMICOLON !in name && (name != [] ==> name[0] != SPACE)
  }

  lemma VersionPrinted(major: int, minor: int)
    ensures ScanVersion([SPACE] + PrintInt(major) + [POINT] + PrintInt(minor)) == Some((major, minor))
  {
    hide PrintInt, ScanInt;
    var after := [POINT] + PrintInt(minor);
    SpaceSkipped(PrintInt(major) + after);
    ScanPrinted(major, after);
    ScanPrinted(minor, []);
    assert PrintInt(minor) + [] == PrintInt(minor) == after[1..];
    assert [SPACE] + PrintInt(major) + [POINT] + PrintInt(minor) == [SPACE] + (PrintInt(major) + after);
  }

  lemma SpaceSkipped(t: Text)
    ensures ScanInt([SPACE] + t) == ScanInt(t)
  {
    hide ScanDigits;
    assert ([SPACE] + t)[1..] == t;
  }

  lemma ElementPrinted(e: Extension)
    requires Plain(e.name)
    ensures Element(Body(e)) == [e]
  {
    hide ScanVersion, PrintInt;
    var version := [SPACE] + PrintInt(e.major) + [POINT] + PrintInt(e.minor);
    var element := Body(e);
    assert element == e.name + ([COLON] + version);
    UntilAll(e.name, COLON, [COLON] + version);
    assert element[|e.name| + 1..] == version;
    VersionPrinted(e.major, e.minor);
  }

  lemma PrintIntPlain(i: int)
    ensures PrintInt(i) != [] && SEMICOLON !in PrintInt(i)
  {
    assert forall u :: u in Digits(if i < 0 then -i else i) ==> IsDigit(u);
  }

  /** Reading `blanks`, then a printed list, gives the list. */
  lemma {:induction false} PrintedIsDescribed(list: seq<Extension>, blanks: Text)
    requires forall e :: e in list ==> Plain(e.name)
    requires blanks == [] || blanks == [SPACE]
    ensures Described(blanks + PrintAll(list)) == list
    decreases |list|
  {
    hide PrintInt, Described, Element, SkipBlanks, Plain;
    if list == [] {
      Unterminated(blanks);
      assert blanks + [] == blanks;
    } else {
      var e := list[0];
      var rest := [SPACE] + PrintAll(list[1..]);
      assert blanks + PrintAll(list) == (blanks + Body(e)) + [SEMICOLON] + rest;
      ElementPlain(e, blanks);
      DescribedStep(blanks + Body(e), rest);
      ElementPrinted(e);
      PrintedIsDescribed(list[1..], [SPACE]);
    }
  }

  lemma ElementPlain(e: Extension, blanks: Text)
    requires Plain(e.name) && (blanks == [] || blanks == [SPACE])
    ensures SEMICOLON !in blanks + Body(e) && SkipBlanks(blanks + Body(e)) == Body(e)
  {
    hide PrintInt;
    var element := Body(e);
    PrintIntPlain(e.major);
    PrintIntPlain(e.minor);
    assert element[0] != SPACE;
    assert SkipBlanks(element) == element;
    if blanks != [] {
      assert (blanks + element)[1..] == element;
    }
  }

  /** Elements are read independently of each other, and what follows the last semicolon is ignored. */
  lemma {:induction false} ElementsIndependent(desc: Text, rest: Text)
    ensures Described(desc + [SEMICOLON] + rest) == Described(desc + [SEMICOLON]) + Described(rest)
    ensures SEMICOLON !in rest ==> Described(desc + [SEMICOLON] + rest) == Described(desc + [SEMICOLON])
    decreases |desc|
  {
    hide Element, SkipBlanks, Described;
    var segment := Until(desc, SEMICOLON);
    if |segment| == |desc| {
      assert segment == desc;
      DescribedStep(segment, rest);
      DescribedStep(segment, []);
      assert segment + [SEMICOLON] + [] == desc + [SEMICOLON];
      Unterminated([]);
      assert Element(SkipBlanks(segment)) + [] == Element(SkipBlanks(segment));
    } else {
      var tail := desc[|segment| + 1..];
      assert desc == segment + [SEMICOLON] + tail;
      assert desc + [SEMICOLON] + rest == segment + [SEMICOLON] + (tail + [SEMICOLON] + rest);
      assert desc + [SEMICOLON] == segment + [SEMICOLON] + (tail + [SEMICOLON]);
      DescribedStep(segment, tail + [SEMICOLON] + rest);
      DescribedStep(segment, tail + [SEMICOLON]);
      ElementsIndependent(tail, rest);
      var e, d := Element(SkipBlanks(segment)), Described(tail + [SEMICOLON]);
      assert e + (d + Described(rest)) == (e + d) + Described(rest);
    }
    Unterminated(rest);
  }

  lemma Unterminated(rest: Text)
    ensures SEMICOLON !in rest ==> Described(rest) == []
  {
    if SEMICOLON !in rest {
      UntilAll(rest, SEMICOLON, []);
      assert rest + [] == rest;
    }
  }

  // ----- the format, written out

  /** An extension as it stands in a descriptor, and what separates it from the next. */
  lemma ListSpelled(e: Extension, list: seq<Extension>)
    ensures PrintAll([e] + list) ==
      e.name + Ascii(": ") + PrintInt(e.major) + Ascii(".") + PrintInt(e.minor) + Ascii("; ") + PrintAll(list)
    ensures PrintAll([]) == []
  {
    hide PrintInt;
    assert ([e] + list)[0] == e && ([e] + list)[1..] == list;
  }

  /** A version may be a major number alone. */
  lemma MajorOnly(name: Text, major: int)
    requires 0x3A !in name
    ensures Element(name + Ascii(": ") + PrintInt(major)) == [Extension(name, major, 0)]
  {
    hide PrintInt, ScanInt;
    var version := [SPACE] + PrintInt(major);
    assert name + Ascii(": ") + PrintInt(major) == name + ([COLON] + version);
    UntilAll(name, COLON, [COLON] + version);
    assert (name + ([COLON] + version))[|name| + 1..] == version;
    SpaceSkipped(PrintInt(major));
    ScanPrinted(major, []);
    assert PrintInt(major) + [] == PrintInt(major);
  }

  /** Elements without a colon, or with no number behind the first one, describe nothing. */
  lemma Undescribed(name: Text, version: Text)
    requires 0x3A !in name
    ensures Element(name) == []
    ensures version == [] || version[0] > 0x39 ==> Element(name + [0x3A] + version) == []
  {
    UntilAll(name, COLON, []);
    assert name + [] == name;
    assert name + [0x3A] + version == name + ([COLON] + version);
    UntilAll(name, COLON, [COLON] + version);
    assert (name + ([COLON] + version))[|name| + 1..] == version;
  }
}
