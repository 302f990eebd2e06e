/** Playlists as .spl text: printing track ids as paths between fixed lines, and reading the paths back. */
module SplPlaylist {
  import opened Bytes
  import opened Decimal
  import opened FolderForest
  import opened SplExact
  import opened SplLookup
  import opened SplPaths
  import opened SplText
  import opened Text
  import opened Wrappers

  /** What the paths are looked up in; `root` is the one the hierarchy was built from. */
  datatype Library = Library(folders: Tree, files: seq<File>, root: Handle)

  /** A 32-bit value as the signed conversions of printf see it. */
  function Signed(v: Handle): int {
    if v < 0x8000_0000 then v else v - 0x1_0000_0000
  }

  /** With at least two places, filled up with a zero. */
  function PrintTwo(i: int): Text {
    var t := PrintInt(i);
    if |t| < 2 then [ZERO] + t else t
  }

  function Version(major: Handle, minor: Handle): Text {
    Ascii("VERSION ") + PrintInt(Signed(major)) + Ascii(".") + PrintTwo(Signed(minor))
  }

  function Header(major: Handle, minor: Handle): seq<Text> {
    [Ascii("SPL PLAYLIST"), Version(major, minor), []]
  }

  function Footer(major: Handle, dnse: Option<Text>): seq<Text> {
    [[], Ascii("END PLAYLIST")]
    + if major != 2 then []
      else [[], Ascii("myDNSe DATA")] + (if dnse.Some? then [dnse.value] else [[], []]) + [Ascii("END myDNSe")]
  }

  /** The paths of the tracks that have one. */
  function Paths(tracks: seq<Handle>, lib: Library): seq<Text> {
    if tracks == [] then []
    else
      var p := FilepathOf(tracks[|tracks| - 1], lib.folders, lib.files, lib.root);
      Paths(tracks[..|tracks| - 1], lib) + if p.Some? then [p.value] else []
  }

  /** The tracks that have a path. */
  function Found(tracks: seq<Handle>, lib: Library): seq<Handle> {
    if tracks == [] then []
    else
      var t := tracks[|tracks| - 1];
      Found(tracks[..|tracks| - 1], lib) + if FilepathOf(t, lib.folders, lib.files, lib.root).Some? then [t] else []
  }

  function Lines(tracks: seq<Handle>, major: Handle, minor: Handle, dnse: Option<Text>, lib: Library): seq<Text> {
    Header(major, minor) + Paths(tracks, lib) + Footer(major, dnse)
  }

  // ----- the same line by line

  ghost predicate PathsAt(paths: seq<Text>, tracks: seq<Handle>, lib: Library, at: seq<nat>) {
    && |at| == |paths|
    && (forall i :: 0 <= i < |at| ==> at[i] < |tracks|)
    && (forall i :: 0 <= i < |at| ==> FilepathOf(tracks[at[i]], lib.folders, lib.files, lib.root) == Some(paths[i]))
    && (forall i, j :: 0 <= i < j < |at| ==> at[i] < at[j])
    && forall k: nat :: k < |tracks| && FilepathOf(tracks[k], lib.folders, lib.files, lib.root).Some? ==> k in at
  }

  /** The paths of all tracks that have one, in the order of the tracks. */
  ghost predicate ArePaths(paths: seq<Text>, tracks: seq<Handle>, lib: Library) {
    exists at :: PathsAt(paths, tracks, lib, at)
  }

  /**
   A playlist: its name, its version, the paths between empty lines, the end mark, and for version 2 the
   DNSe part.
   */
  ghost predicate LaidOut(p: seq<Text>, paths: seq<Text>, major: Handle, minor: Handle, dnse: Option<Text>) {
    var n := |paths|;
    && |p| == n + 5 + (if major != 2 then 0 else if dnse.Some? then 4 else 5)
    && p[0] == Ascii("SPL PLAYLIST")
    && p[1] == Version(major, minor)
    && (major == 1 && minor == 0 ==> p[1] == Ascii("VERSION 1.00"))
    && (major == 2 && minor == 0 ==> p[1] == Ascii("VERSION 2.00"))
    && p[2] == []
    && p[3..3 + n] == paths
    && p[3 + n] == []
    && p[4 + n] == Ascii("END PLAYLIST")
    && (major == 2 ==>
          && p[5 + n] == [] && p[6 + n] == Ascii("myDNSe DATA")
          && p[|p| - 1] == Ascii("END myDNSe")
          && if dnse.Some? then p[7 + n] == dnse.value else p[7 + n] == [] && p[8 + n] == [])
  }

  lemma {:induction false} PathsPlaced(tracks: seq<Handle>, lib: Library) returns (at: seq<nat>)
    ensures PathsAt(Paths(tracks, lib), tracks, lib, at)
  {
    hide FilepathOf;
    at := [];
    if tracks != [] {
      var n := |tracks| - 1;
      at := PathsPlaced(tracks[..n], lib);
      PathsMore(Paths(tracks[..n], lib), tracks, lib, at);
      if FilepathOf(tracks[n], lib.folders, lib.files, lib.root).Some? {
        at := at + [n];
      }
    }
  }

  lemma PathsMore(paths: seq<Text>, tracks: seq<Handle>, lib: Library, at: seq<nat>)
    requires tracks != [] && PathsAt(paths, tracks[..|tracks| - 1], lib, at)
    ensures var p := FilepathOf(tracks[|tracks| - 1], lib.folders, lib.files, lib.root);
      if p.None? then PathsAt(paths, tracks, lib, at) else PathsAt(paths + [p.value], tracks, lib, at + [|tracks| - 1])
  {
    hide FilepathOf;
    var n := |tracks| - 1;
    var init, more := tracks[..n], at + [n];
    assert forall k: nat :: k < n ==> init[k] == tracks[k];
    assert forall k: nat :: k in at ==> k in more;
    assert more[|at|] == n;
  }

  /** The versions that are in use, and the wrong one that a large number makes. */
  lemma VersionsWritten()
    ensures Version(1, 0) == Ascii("VERSION 1.00") && Version(2, 0) == Ascii("VERSION 2.00")
    ensures Version(2, 1234) == Ascii("VERSION 2.1234") && Version(0xffff_fff6, 1) == Ascii("VERSION -10.01")
  {
    hide Ascii, PrintInt;
    PrintedNumbers();
    VersionOf(1, 0, "1", "00");
    VersionOf(2, 0, "2", "00");
    VersionOf(2, 1234, "2", "1234");
    VersionOf(0xffff_fff6, 1, "-10", "01");
    assert "VERSION " + "1" + "." + "00" == "VERSION 1.00";
    assert "VERSION " + "2" + "." + "00" == "VERSION 2.00";
    assert "VERSION " + "2" + "." + "1234" == "VERSION 2.1234";
    assert "VERSION " + "-10" + "." + "01" == "VERSION -10.01";
  }

  lemma VersionOf(major: Handle, minor: Handle, a: string, b: string)
    requires PrintInt(Signed(major)) == Ascii(a)
    requires |b| >= 2
    requires PrintInt(Signed(minor)) == Ascii(b) ||
      (b[0] == '0' && |b| == 2 && PrintInt(Signed(minor)) == Ascii(b[1..]))
    ensures Version(major, minor) == Ascii("VERSION " + a + "." + b)
  {
    hide PrintInt;
    assert PrintTwo(Signed(minor)) == Ascii(b);
    AsciiConcat("VERSION ", a);
    AsciiConcat("VERSION " + a, ".");
    AsciiConcat("VERSION " + a + ".", b);
  }

  lemma LinesLaidOut(tracks: seq<Handle>, major: Handle, minor: Handle, dnse: Option<Text>, lib: Library)
    ensures ArePaths(Paths(tracks, lib), tracks, lib)
    ensures LaidOut(Lines(tracks, major, minor, dnse, lib), Paths(tracks, lib), major, minor, dnse)
  {
    hide Version, Ascii, PathsAt;
    var at := PathsPlaced(tracks, lib);
    VersionsWritten();
    var p, paths := Lines(tracks, major, minor, dnse, lib), Paths(tracks, lib);
    assert p[3..3 + |paths|] == paths;
  }

  predicate FitPaths(tracks: seq<Handle>, lib: Library) {
    forall t :: t in tracks ==> FindFile(lib.files, t).Some? ==> FitsPath(FindFile(lib.files, t).value, lib.folders)
  }

  /** The version line is printed into 14 cells. */
  method SplTextFromTracks(tracks: seq<Handle>, major: Handle, minor: Handle, dnse: Option<Text>, lib: Library,
    ghost list: seq<Folder>)
    returns (p: seq<Text>)
    requires Sound(lib.folders, list, lib.root) && FitPaths(tracks, lib) && |Version(major, minor)| < 14
    ensures p == Lines(tracks, major, minor, dnse, lib)
    ensures exists paths :: ArePaths(paths, tracks, lib) && LaidOut(p, paths, major, minor, dnse)
  {
    hide Sound, FilepathOf, Ascii, Version, Footer, ArePaths, LaidOut;
    LinesLaidOut(tracks, major, minor, dnse, lib);
    p := [Ascii("SPL PLAYLIST")];
    p := p + [Version(major, minor)];
    p := p + [[]];
    for i := 0 to |tracks|
      invariant p == Header(major, minor) + Paths(tracks[..i], lib)
    {
      assert tracks[..i + 1][..i] == tracks[..i];
      assert tracks[i] in tracks;
      var f := DiscoverFilepathFromId(tracks[i], lib.folders, lib.files, list, lib.root);
      if f.Some? {
        p := p + [f.value];
      }
    }
    assert tracks[..|tracks|] == tracks;
    var footer := AppendFooter(major, dnse);
    p := p + footer;
  }

  method AppendFooter(major: Handle, dnse: Option<Text>) returns (p: seq<Text>)
    ensures p == Footer(major, dnse)
  {
    hide Ascii;
    p := [[]];
    p := p + [Ascii("END PLAYLIST")];
    if major == 2 {
      p := p + [[]];
      p := p + [Ascii("myDNSe DATA")];
      if dnse.Some? {
        p := p + [dnse.value];
      } else {
        p := p + [[]];
        p := p + [[]];
      }
      p := p + [Ascii("END myDNSe")];
    }
  }

  predicate IsTrack(line: Text) {
    line != [] && line[0] == BACKSLASH
  }

  /** The ids that the track lines stand for. */
  function Ids(lines: seq<Text>, lib: Library): seq<Handle> {
    if lines == [] then []
    else
      var last := lines[|lines| - 1];
      Ids(lines[..|lines| - 1], lib) + if IsTrack(last) then [IdOf(last, lib.folders, lib.files)] else []
  }

  /** The ids of the lines that start with a backslash, in order. */
  ghost predicate IdsAt(ids: seq<Handle>, lines: seq<Text>, lib: Library, at: seq<nat>) {
    && |at| == |ids|
    && (forall i :: 0 <= i < |at| ==> at[i] < |lines| && lines[at[i]] != [] && lines[at[i]][0] == 0x5C)
    && (forall i :: 0 <= i < |at| ==> ids[i] == IdOf(lines[at[i]], lib.folders, lib.files))
    && (forall i, j :: 0 <= i < j < |at| ==> at[i] < at[j])
    && forall k: nat :: k < |lines| && lines[k] != [] && lines[k][0] == 0x5C ==> k in at
  }

  ghost predicate AreIds(ids: seq<Handle>, lines: seq<Text>, lib: Library) {
    exists at :: IdsAt(ids, lines, lib, at)
  }

  lemma {:induction false} IdsPlaced(lines: seq<Text>, lib: Library) returns (at: seq<nat>)
    ensures IdsAt(Ids(lines, lib), lines, lib, at)
  {
    hide IdOf;
    at := [];
    if lines != [] {
      var n := |lines| - 1;
      at := IdsPlaced(lines[..n], lib);
      IdsMore(Ids(lines[..n], lib), lines, lib, at);
      if IsTrack(lines[n]) {
        at := at + [n];
      }
    }
  }

  lemma IdsMore(ids: seq<Handle>, lines: seq<Text>, lib: Library, at: seq<nat>)
    requires lines != [] && IdsAt(ids, lines[..|lines| - 1], lib, at)
    ensures var last := lines[|lines| - 1];
      if IsTrack(last) then IdsAt(ids + [IdOf(last, lib.folders, lib.files)], lines, lib, at + [|lines| - 1])
      else IdsAt(ids, lines, lib, at)
  {
    hide IdOf;
    var n := |lines| - 1;
    var init, more := lines[..n], at + [n];
    assert forall k: nat :: k < n ==> init[k] == lines[k];
    assert forall k: nat :: k in at ==> k in more;
    assert more[|at|] == n;
  }

  method TrackNo(p: seq<Text>, lib: Library) returns (c: nat)
    ensures c == |Ids(p, lib)|
  {
    c := 0;
    for i := 0 to |p|
      invariant c == |Ids(p[..i], lib)|
    {
      assert p[..i + 1][..i] == p[..i];
      if p[i] != [] && p[i][0] == BACKSLASH {
        c := c + 1;
      }
    }
    assert p[..|p|] == p;
  }

  /** Fills an array as large as `TrackNo` says; it is filled exactly. */
  method TracksFromSplText(p: seq<Text>, tracks: array<Handle>, lib: Library)
    requires tracks.Length == |Ids(p, lib)| && forall line :: line in p ==> 0 !in line
    modifies tracks
    ensures tracks[..] == Ids(p, lib) && AreIds(tracks[..], p, lib)
  {
    ghost var at := IdsPlaced(p, lib);
    hide IdsAt;
    var c := 0;
    for i := 0 to |p|
      invariant c <= tracks.Length && tracks[..c] == Ids(p[..i], lib)
    {
      assert p[..i + 1][..i] == p[..i] && p[i] in p;
      IdsGrow(p, i + 1, lib);
      if p[i] != [] && p[i][0] == BACKSLASH {
        tracks[c] := DiscoverIdFromFilepath(p[i], lib.folders, lib.files);
        c := c + 1;
      }
    }
    assert p[..|p|] == p;
  }

  lemma {:induction false} IdsGrow(lines: seq<Text>, n: nat, lib: Library)
    requires n <= |lines|
    ensures |Ids(lines[..n], lib)| <= |Ids(lines, lib)|
    decreases |lines| - n
  {
    if n < |lines| {
      assert lines[..n + 1][..n] == lines[..n];
      IdsGrow(lines, n + 1, lib);
    } else {
      assert lines[..n] == lines;
    }
  }

  /** The bytes of a playlist file: version 2 for devices that want it, else version 1. */
  method PlaylistToSpl(tracks: seq<Handle>, v2: bool, lib: Library, ghost list: seq<Folder>) returns (file: seq<Byte>)
    requires Sound(lib.folders, list, lib.root) && FitPaths(tracks, lib)
    ensures file == Print(Lines(tracks, if v2 then 2 else 1, 0, None, lib))
    ensures exists p, paths ::
      && ArePaths(paths, tracks, lib)
      && LaidOut(p, paths, if v2 then 2 else 1, 0, None)
      && file == [0xFF, 0xFE] + LineBytes(p)
  {
    hide Sound, FitPaths, Lines, Print, ArePaths, LaidOut, LineBytes;
    var major: Handle := if v2 then 2 else 1;
    VersionFits(major);
    var p := SplTextFromTracks(tracks, major, 0, None, lib, list);
    file := WriteFromSplText(p);
    PrintWritten(p);
  }

  lemma VersionFits(major: Handle)
    requires major < 10
    ensures |Version(major, 0)| < 14
  {
    hide Ascii;
    assert Digits(major) == [ZERO + major] && Digits(0) == [ZERO];
  }

  /** The tracks of a playlist file, delivered by `read` in pieces of the sizes `chunks`. */
  method SplToPlaylist(file: seq<Byte>, chunks: seq<nat>, lib: Library) returns (tracks: array<Handle>)
    ensures fresh(tracks) && tracks[..] == Ids(Parse(file), lib) && AreIds(tracks[..], Parse(file), lib)
  {
    hide Feed, Ids, AreIds;
    var p := ReadIntoSplText(file, chunks);
    var no := TrackNo(p, lib);
    tracks := new Handle[no];
    ReadLinesClean(file);
    TracksFromSplText(p, tracks, lib);
  }

  // ----- there and back

  lemma {:induction false} IdsConcat(a: seq<Text>, b: seq<Text>, lib: Library)
    ensures Ids(a + b, lib) == Ids(a, lib) + Ids(b, lib)
    decreases |b|
  {
    if b == [] {
      assert a + b == a;
    } else {
      assert (a + b)[..|a + b| - 1] == a + b[..|b| - 1];
      IdsConcat(a, b[..|b| - 1], lib);
    }
  }

  lemma OneLine(line: Text, lib: Library)
    ensures Ids([line], lib) == if IsTrack(line) then [IdOf(line, lib.folders, lib.files)] else []
  {
    var lines := [line];
    assert lines[..0] == [];
  }

  lemma {:induction false} NoTracks(lines: seq<Text>, lib: Library)
    requires forall line :: line in lines ==> !IsTrack(line)
    ensures Ids(lines, lib) == []
  {
    if lines != [] {
      NoTracks(lines[..|lines| - 1], lib);
    }
  }

  /** Writing and reading drops empty lines and byte order marks, and with them no track. */
  lemma {:induction false} KeptTracks(lines: seq<Text>, lib: Library)
    requires forall line :: line in lines ==> line == [] || line[0] != BOM
    ensures Ids(Kept(lines), lib) == Ids(lines, lib)
    decreases |lines|
  {
    if |lines| > 1 {
      var init, last := lines[..|lines| - 1], lines[|lines| - 1];
      assert last in lines;
      KeptTracks(init, lib);
      if last == [] {
        assert Kept(lines) == Kept(init);
      } else {
        assert Kept(lines) == Kept(init) + [last];
        IdsConcat(Kept(init), [last], lib);
        OneLine(last, lib);
      }
    }
  }

  /** Names that can be told apart, so that ids and paths determine each other. */
  ghost predicate Tidy(lib: Library, list: seq<Folder>) {
    && Sound(lib.folders, list, lib.root) && UniqueNames(lib.folders) && PlainNames(lib.folders)
    && UniqueFiles(lib.files) && forall f :: f in lib.files ==> BACKSLASH !in f.filename
  }

  lemma {:induction false} IdsOfPaths(tracks: seq<Handle>, lib: Library, list: seq<Folder>)
    requires Tidy(lib, list)
    ensures Ids(Paths(tracks, lib), lib) == Found(tracks, lib)
    decreases |tracks|
  {
    hide Tidy, IdOf, FilepathOf;
    if tracks != [] {
      var init, t := tracks[..|tracks| - 1], tracks[|tracks| - 1];
      IdsOfPaths(init, lib, list);
      var p := FilepathOf(t, lib.folders, lib.files, lib.root);
      if p.None? {
        assert Paths(tracks, lib) == Paths(init, lib);
      } else {
        IdOfPath(t, p.value, lib, list);
        IdsConcat(Paths(init, lib), [p.value], lib);
        OneLine(p.value, lib);
      }
    }
  }

  lemma IdOfPath(t: Handle, p: Text, lib: Library, list: seq<Folder>)
    requires Tidy(lib, list) && FilepathOf(t, lib.folders, lib.files, lib.root) == Some(p)
    ensures IsTrack(p) && IdOf(p, lib.folders, lib.files) == t
  {
    PathRoundTrip(FindFile(lib.files, t).value, lib.folders, list, lib.root, lib.files);
  }

  /** The lines around the tracks are no tracks themselves, whatever the version. */
  lemma OtherLines(major: Handle, minor: Handle, dnse: Option<Text>, lib: Library)
    requires dnse.Some? ==> !IsTrack(dnse.value)
    ensures Ids(Header(major, minor), lib) == [] && Ids(Footer(major, dnse), lib) == []
  {
    NoTracks(Header(major, minor), lib);
    NoTracks(Footer(major, dnse), lib);
  }

  /**
   A playlist written to a file and read back, in pieces of any size, names the tracks that were
   put in and have a path, in order.
   */
  lemma PlaylistRoundTrip(tracks: seq<Handle>, major: Handle, minor: Handle, dnse: Option<Text>, lib: Library,
    list: seq<Folder>)
    requires Tidy(lib, list)
    requires dnse.Some? ==> dnse.value == [] || (dnse.value[0] != BACKSLASH && dnse.value[0] != BOM)
    requires forall line :: line in Lines(tracks, major, minor, dnse, lib) ==> Clean(line) && FitsBuffers(line)
    ensures Ids(Parse(Print(Lines(tracks, major, minor, dnse, lib))), lib) == Found(tracks, lib)
  {
    hide Tidy, Ids, Kept, Feed, Print, Clean, FitsBuffers;
    var paths := Paths(tracks, lib);
    var lines := Lines(tracks, major, minor, dnse, lib);
    PrintParse(lines);
    NoMarks(tracks, major, minor, dnse, lib);
    KeptTracks(lines, lib);
    IdsConcat(Header(major, minor) + paths, Footer(major, dnse), lib);
    IdsConcat(Header(major, minor), paths, lib);
    OtherLines(major, minor, dnse, lib);
    IdsOfPaths(tracks, lib, list);
  }

  lemma NoMarks(tracks: seq<Handle>, major: Handle, minor: Handle, dnse: Option<Text>, lib: Library)
    requires dnse.Some? ==> dnse.value == [] || dnse.value[0] != BOM
    ensures forall line :: line in Lines(tracks, major, minor, dnse, lib) ==> line == [] || line[0] != BOM
  {
    PathsAreTracks(tracks, lib);
  }

  lemma {:induction false} PathsAreTracks(tracks: seq<Handle>, lib: Library)
    ensures forall line :: line in Paths(tracks, lib) ==> IsTrack(line)
  {
    if tracks != [] {
      PathsAreTracks(tracks[..|tracks| - 1], lib);
    }
  }
}
