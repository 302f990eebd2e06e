/** How paths are spelled: which files have one, what it reads, and how it falls into parts. */
module SplSpelled {
  import opened FolderForest
  import opened FolderTrail
  import opened SplLookup
  import opened SplPaths
  import opened Text
  import opened Wrappers

  /** Names between backslashes, one in front of each, and a last one. */
  function Spelled(names: seq<Text>, last: Text): Text {
    if names == [] then [0x5C] + last else [0x5C] + names[0] + Spelled(names[1..], last)
  }

  ghost predicate FirstAt(files: seq<File>, id: Handle, f: File, n: nat) {
    n < |files| && files[n] == f && f.item_id == id && forall m :: 0 <= m < n ==> files[m].item_id != id
  }

  /** The first file of the list with an id. */
  ghost predicate FirstWithId(files: seq<File>, id: Handle, f: File) {
    exists n: nat :: FirstAt(files, id, f, n)
  }

  ghost predicate Goes(f: File, parent: Handle, name: Text) {
    f.parent_id == parent && f.filename == name
  }

  ghost predicate NamedAt(files: seq<File>, parent: Handle, name: Text, f: File, n: nat) {
    n < |files| && files[n] == f && Goes(f, parent, name) && forall m :: 0 <= m < n ==> !Goes(files[m], parent, name)
  }

  /** The first file of the list with a name in a folder. */
  ghost predicate FirstNamed(files: seq<File>, parent: Handle, name: Text, f: File) {
    exists n: nat :: NamedAt(files, parent, name, f, n)
  }

  lemma {:induction false} FindFileIsFirst(files: seq<File>, id: Handle, f: File)
    ensures FindFile(files, id) == Some(f) <==> FirstWithId(files, id, f)
  {
    if files != [] {
      FindFileIsFirst(files[1..], id, f);
      forall n: nat ensures FirstAt(files, id, f, n) <==>
          if n == 0 then f == files[0] && f.item_id == id
          else files[0].item_id != id && FirstAt(files[1..], id, f, n - 1)
      {
        FirstStep(files, id, f, n);
      }
      hide FirstAt;
      assert forall n: nat :: FirstAt(files[1..], id, f, n) && files[0].item_id != id ==> FirstAt(files, id, f, n + 1);
      assert FirstAt(files, id, f, 0) <==> f == files[0] && f.item_id == id;
    }
  }

  lemma FirstStep(files: seq<File>, id: Handle, f: File, n: nat)
    requires files != []
    ensures FirstAt(files, id, f, n) <==>
      if n == 0 then f == files[0] && f.item_id == id
      else files[0].item_id != id && FirstAt(files[1..], id, f, n - 1)
  {
    if n > 0 && FirstAt(files[1..], id, f, n - 1) && files[0].item_id != id {
      assert forall m :: 0 < m < n ==> files[m] == files[1..][m - 1];
    }
  }

  lemma {:induction false} FileNamedIsFirst(files: seq<File>, parent: Handle, name: Text, f: File)
    ensures FileNamed(files, parent, name) == Some(f) <==> FirstNamed(files, parent, name, f)
  {
    if files != [] {
      FileNamedIsFirst(files[1..], parent, name, f);
      NextNamed(files, parent, name);
      forall n: nat ensures NamedAt(files, parent, name, f, n) <==>
          if n == 0 then f == files[0] && Goes(f, parent, name)
          else !Goes(files[0], parent, name) && NamedAt(files[1..], parent, name, f, n - 1)
      {
        NamedStep(files, parent, name, f, n);
      }
      hide NamedAt, Goes, FileNamed;
      assert forall n: nat :: NamedAt(files[1..], parent, name, f, n) && !Goes(files[0], parent, name) ==>
        NamedAt(files, parent, name, f, n + 1);
      assert NamedAt(files, parent, name, f, 0) <==> f == files[0] && Goes(f, parent, name);
    }
  }

  lemma NamedStep(files: seq<File>, parent: Handle, name: Text, f: File, n: nat)
    requires files != []
    ensures NamedAt(files, parent, name, f, n) <==>
      if n == 0 then f == files[0] && Goes(f, parent, name)
      else !Goes(files[0], parent, name) && NamedAt(files[1..], parent, name, f, n - 1)
  {
    hide Goes;
    if n > 0 && NamedAt(files[1..], parent, name, f, n - 1) && !Goes(files[0], parent, name) {
      assert forall m :: 0 < m < n ==> files[m] == files[1..][m - 1];
    }
  }

  lemma NextNamed(files: seq<File>, parent: Handle, name: Text)
    requires files != []
    ensures FileNamed(files, parent, name) ==
      if Goes(files[0], parent, name) then Some(files[0]) else FileNamed(files[1..], parent, name)
  {
  }

  /** A path falls into the parts it is spelled with. */
  lemma {:induction false} PartsSpell(s: Text)
    ensures Spelled(Dirs(s), LastName(s)) == [0x5C] + s
    ensures 0x5C !in LastName(s) && forall i :: 0 <= i < |Dirs(s)| ==> 0x5C !in Dirs(s)[i]
    decreases |s|
  {
    hide Dirs, LastName;
    var part := Until(s, BACKSLASH);
    if |part| < |s| {
      hide Until;
      var rest := s[|part| + 1..];
      assert s == part + [BACKSLASH] + rest;
      PartsSpell(rest);
      PartsOf(part, rest);
      SpelledNext(part, Dirs(rest), LastName(rest), rest);
    } else {
      OnePart(s);
    }
  }

  lemma SpelledNext(part: Text, names: seq<Text>, last: Text, rest: Text)
    requires Spelled(names, last) == [0x5C] + rest
    ensures Spelled([part] + names, last) == [0x5C] + (part + [0x5C] + rest)
  {
    hide Spelled;
    SpelledMore(part, names, last);
  }

  lemma SpelledMore(part: Text, names: seq<Text>, last: Text)
    ensures Spelled([part] + names, last) == [0x5C] + part + Spelled(names, last)
  {
    assert ([part] + names)[1..] == names;
  }

  /** The names of folders. */
  function Names(way: seq<Folder>): seq<Text> {
    if way == [] then [] else [way[0].name] + Names(way[1..])
  }

  lemma {:induction false} NamesAt(way: seq<Folder>)
    ensures |Names(way)| == |way| && forall i :: 0 <= i < |way| ==> Names(way)[i] == way[i].name
  {
    if way != [] {
      NamesAt(way[1..]);
    }
  }

  lemma {:induction false} TrailSpelled(way: seq<Folder>, name: Text)
    ensures [BACKSLASH] + PathOf(way, name) == Spelled(Names(way), name)
  {
    if way != [] {
      TrailSpelled(way[1..], name);
      assert Names(way)[1..] == Names(way[1..]);
      assert [BACKSLASH] + (way[0].name + [BACKSLASH] + PathOf(way[1..], name))
        == [BACKSLASH] + way[0].name + ([BACKSLASH] + PathOf(way[1..], name));
    }
  }

  /** Handles being distinct, there is one way up from a folder. */
  lemma {:induction false} OneWay(folders: Tree, a: seq<Folder>, b: seq<Folder>, x: seq<Text>, y: seq<Text>)
    requires Distinct(Preorder(folders)) && NoZeroIds(folders)
    requires Way(folders, a, 0, x) && Way(folders, b, 0, y) && End(a, 0) == End(b, 0)
    ensures a == b
    decreases |a|
  {
    if a == [] || b == [] {
      assert a == [] && b == [];
    } else {
      var m, n := |a| - 1, |b| - 1;
      PreorderElems(folders, a[m]);
      PreorderElems(folders, b[n]);
      SameId(Preorder(folders), a[m], b[n]);
      OneWay(folders, a[..m], b[..n], x[..m], y[..n]);
      assert a == a[..m] + [a[m]] && b == b[..n] + [b[n]];
    }
  }

  /** There is a way to a folder just when there is a trail to it and the hierarchy hangs from handle 0. */
  lemma TrailIsWay(folders: Tree, list: seq<Folder>, root: Handle, parent: Handle) returns (way: seq<Folder>)
    requires Sound(folders, list, root)
    requires TrailTo(folders, parent).Some? && (TrailTo(folders, parent).value == [] || root == 0)
    ensures way == TrailTo(folders, parent).value && Way(folders, way, 0, Names(way)) && End(way, 0) == parent
  {
    way := TrailTo(folders, parent).value;
    NamesAt(way);
    if parent != 0 {
      TrailIsChain(folders, list, root, parent);
      forall i | 0 <= i < |way| ensures way[i] in Elems(folders) { TrailInside(folders, parent, i); }
    }
  }

  lemma WayHasTrail(folders: Tree, list: seq<Folder>, root: Handle, way: seq<Folder>, names: seq<Text>)
    requires Sound(folders, list, root) && Way(folders, way, 0, names)
    ensures TrailTo(folders, End(way, 0)).Some?
    ensures way != [] ==> root == 0
  {
    if way != [] {
      var n := |way| - 1;
      FindFolderComplete(folders, way[n].folder_id, way[n]);
      TrailFinds(folders, way[n].folder_id);
      forall g | g in Siblings(folders) ensures g.parent_id == root { KidsIn(list, root, g); }
      ParentsInside(folders, list, root, way[0]);
    }
  }

  /** The folders on the way from the top to the folder of a file, whose names and that of the file spell `p`. */
  ghost predicate Locates(folders: Tree, f: File, way: seq<Folder>, p: Text) {
    Way(folders, way, 0, Names(way)) && End(way, 0) == f.parent_id && p == Spelled(Names(way), f.filename)
  }

  /**
   A track has a path exactly if its file lies at the end of a way of folders from handle 0 down, and then
   the path spells the names on that way.
   */
  lemma PathExactly(track: Handle, folders: Tree, files: seq<File>, list: seq<Folder>, root: Handle, p: Text)
    requires Sound(folders, list, root)
    ensures FilepathOf(track, folders, files, root) == Some(p) <==>
      exists f, way :: FirstWithId(files, track, f) && Locates(folders, f, way, p)
  {
    hide FirstWithId, FindFile, Spelled, Trail, PathOf, Names, Way, End;
    if FilepathOf(track, folders, files, root) == Some(p) {
      var f := FindFile(files, track).value;
      FindFileIsFirst(files, track, f);
      var way := TrailIsWay(folders, list, root, f.parent_id);
      TrailSpelled(way, f.filename);
      assert Locates(folders, f, way, p);
    }
    if f, way :| FirstWithId(files, track, f) && Locates(folders, f, way, p) {
      FindFileIsFirst(files, track, f);
      WayHasTrail(folders, list, root, way, Names(way));
      EmptyEnd(way, f.parent_id);
      var trail := TrailIsWay(folders, list, root, f.parent_id);
      OneWay(folders, way, trail, Names(way), Names(trail));
      TrailSpelled(way, f.filename);
    }
  }

  lemma EmptyEnd(way: seq<Folder>, parent: Handle)
    requires End(way, 0) == parent
    ensures way == [] ==> parent == 0
  {
  }

  // ----- the order of the search for a folder

  /** A folder, then those behind it on its level, then those below it. */
  function Searched(t: Tree): seq<Folder> {
    match t
    case Leaf => []
    case Node(f, c, s) => [f] + Searched(s) + Searched(c)
  }

  function FirstUnder(list: seq<Folder>, parent: Handle, name: Text): Handle {
    if list == [] then 0
    else if list[0].parent_id == parent && list[0].name == name then list[0].folder_id
    else FirstUnder(list[1..], parent, name)
  }

  lemma {:induction false} FirstConcat(a: seq<Folder>, b: seq<Folder>, parent: Handle, name: Text)
    requires forall f :: f in a ==> f.folder_id != 0
    ensures FirstUnder(a + b, parent, name) ==
      if FirstUnder(a, parent, name) != 0 then FirstUnder(a, parent, name)
      else FirstUnder(b, parent, name)
  {
    if a == [] {
      assert a + b == b;
    } else {
      assert a[0] in a;
      assert (a + b)[1..] == a[1..] + b;
      FirstConcat(a[1..], b, parent, name);
    }
  }

  lemma {:induction false} SearchedElems(t: Tree, f: Folder)
    ensures f in Searched(t) <==> f in Elems(t)
  {
    match t
    case Leaf =>
    case Node(_, c, s) =>
      SearchedElems(c, f);
      SearchedElems(s, f);
  }

  /** Of several folders with the name the first one in this order is found. */
  lemma {:induction false} FirstFolderFound(t: Tree, parent: Handle, name: Text)
    requires NoZeroIds(t)
    ensures FindFolderId(t, parent, name) == FirstUnder(Searched(t), parent, name)
  {
    match t
    case Leaf =>
    case Node(f, c, s) =>
      FirstFolderFound(c, parent, name);
      FirstFolderFound(s, parent, name);
      forall g | g in [f] + Searched(s) ensures g.folder_id != 0 { SearchedElems(s, g); }
      FirstConcat([f] + Searched(s), Searched(c), parent, name);
      FirstConcat([f], Searched(s), parent, name);
      assert [f][1..] == [];
  }

  /** What does not start with a backslash is no path. */
  lemma NotAPath(s: Text, folders: Tree, files: seq<File>)
    requires s == [] || s[0] != 0x5C
    ensures IdOf(s, folders, files) == 0
  {
  }
}
