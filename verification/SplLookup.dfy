/** What looking up a path finds, on every path: there and back, and when the documented 0 for failure comes out. */
module SplLookup {
  import opened FolderForest
  import opened FolderTrail
  import opened SplPaths
  import opened Text
  import opened Wrappers

  ghost predicate UniqueNames(folders: Tree) {
    forall f, g :: f in Elems(folders) && g in Elems(folders) && f.parent_id == g.parent_id && f.name == g.name ==>
      f == g
  }

  ghost predicate UniqueFiles(files: seq<File>) {
    forall f, g :: f in files && g in files && SameEntry(f, g) ==> f == g
  }

  /** Files with the same id, or the same name in the same folder. */
  predicate SameEntry(f: File, g: File) {
    f.item_id == g.item_id || (f.parent_id == g.parent_id && f.filename == g.filename)
  }

  ghost predicate PlainNames(folders: Tree) {
    forall f :: f in Elems(folders) ==> BACKSLASH !in f.name
  }

  ghost predicate NoZeroIds(folders: Tree) {
    forall f :: f in Elems(folders) ==> f.folder_id != 0
  }

  // ----- the parts of a path

  /** The parts in front of the last one. */
  function Dirs(s: Text): seq<Text>
    decreases |s|
  {
    var part := Until(s, BACKSLASH);
    if |part| == |s| then [] else [part] + Dirs(s[|part| + 1..])
  }

  function LastName(s: Text): (name: Text)
    ensures BACKSLASH !in name
    decreases |s|
  {
    var part := Until(s, BACKSLASH);
    if |part| == |s| then s else LastName(s[|part| + 1..])
  }

  lemma PartsOf(part: Text, rest: Text)
    requires BACKSLASH !in part
    ensures Dirs(part + [BACKSLASH] + rest) == [part] + Dirs(rest)
    ensures LastName(part + [BACKSLASH] + rest) == LastName(rest)
  {
    var s := part + [BACKSLASH] + rest;
    assert s == part + ([BACKSLASH] + rest);
    UntilAll(part, BACKSLASH, [BACKSLASH] + rest);
    assert s[|part| + 1..] == rest;
  }

  lemma OnePart(name: Text)
    requires BACKSLASH !in name
    ensures Dirs(name) == [] && LastName(name) == name
  {
    UntilAll(name, BACKSLASH, []);
    assert name + [] == name;
  }

  // ----- the folder that is reached

  /** Where following the folder names `dirs` down from `id` ends; a missing folder leads back to the top. */
  function Reached(folders: Tree, id: Handle, dirs: seq<Text>): Handle
    decreases |dirs|
  {
    if dirs == [] then id else Reached(folders, FindFolderId(folders, id, dirs[0]), dirs[1..])
  }

  lemma {:induction false} ReachedConcat(folders: Tree, id: Handle, a: seq<Text>, b: seq<Text>)
    ensures Reached(folders, id, a + b) == Reached(folders, Reached(folders, id, a), b)
    decreases |a|
  {
    if a == [] {
      assert a + b == b;
    } else {
      assert (a + b)[1..] == a[1..] + b;
      ReachedConcat(folders, FindFolderId(folders, id, a[0]), a[1..], b);
    }
  }

  lemma ReachedNext(folders: Tree, dirs: seq<Text>, name: Text)
    ensures Reached(folders, 0, dirs + [name]) == FindFolderId(folders, Reached(folders, 0, dirs), name)
  {
    ReachedConcat(folders, 0, dirs, [name]);
    var one := [name];
    assert one[1..] == [];
  }

  ghost predicate Missing(folders: Tree, parent: Handle, name: Text) {
    forall f :: f in Elems(folders) ==> f.parent_id != parent || f.name != name
  }

  /** `way` is folders of the hierarchy, each in the one before, with the names `dirs`, the first in folder `id`. */
  ghost predicate Way(folders: Tree, way: seq<Folder>, id: Handle, dirs: seq<Text>) {
    && |way| == |dirs|
    && (forall i :: 0 <= i < |way| ==> way[i] in Elems(folders) && way[i].name == dirs[i])
    && (way != [] ==> way[0].parent_id == id)
    && forall i :: 0 <= i < |way| - 1 ==> way[i + 1].parent_id == way[i].folder_id
  }

  function End(way: seq<Folder>, id: Handle): Handle {
    if way == [] then id else way[|way| - 1].folder_id
  }

  lemma {:induction false} FindFolderIdComplete(t: Tree, f: Folder)
    requires f in Elems(t) && NoZeroIds(t)
    ensures FindFolderId(t, f.parent_id, f.name) != 0
  {
    var Node(g, c, s) := t;
    if f in Elems(s) {
      FindFolderIdComplete(s, f);
    } else if f in Elems(c) {
      FindFolderIdComplete(c, f);
    }
  }

  lemma FindFolderIdExact(t: Tree, f: Folder)
    requires f in Elems(t) && UniqueNames(t) && NoZeroIds(t)
    ensures FindFolderId(t, f.parent_id, f.name) == f.folder_id
  {
    FindFolderIdComplete(t, f);
  }

  /** Folder 0 stands for nothing found: exactly then no folder has the name. */
  lemma NotFound(folders: Tree, parent: Handle, name: Text)
    requires NoZeroIds(folders)
    ensures FindFolderId(folders, parent, name) == 0 <==> Missing(folders, parent, name)
  {
    if f :| f in Elems(folders) && f.parent_id == parent && f.name == name {
      FindFolderIdComplete(folders, f);
    }
  }

  /** Folders that are all there are followed to the last of them. */
  lemma {:induction false} ReachedByWay(folders: Tree, way: seq<Folder>, id: Handle, dirs: seq<Text>)
    requires Way(folders, way, id, dirs) && UniqueNames(folders) && NoZeroIds(folders)
    ensures Reached(folders, id, dirs) == End(way, id)
    decreases |way|
  {
    if way != [] {
      FindFolderIdExact(folders, way[0]);
      ReachedByWay(folders, way[1..], way[0].folder_id, dirs[1..]);
    }
  }

  lemma WayNext(folders: Tree, way: seq<Folder>, id: Handle, dirs: seq<Text>, f: Folder)
    requires Way(folders, way, id, dirs) && f in Elems(folders) && f.parent_id == End(way, id)
    ensures Way(folders, way + [f], id, dirs + [f.name]) && End(way + [f], id) == f.folder_id
  {
  }

  lemma EmptyWay(folders: Tree) returns (k: nat, way: seq<Folder>)
    ensures k == 0 && way == [] && Way(folders, way, 0, []) && End(way, 0) == 0 && Reached(folders, 0, []) == 0
  {
    k, way := 0, [];
  }

  lemma NoWay(folders: Tree, way: seq<Folder>, name: Text, rest: seq<Text>)
    requires Missing(folders, 0, name)
    ensures !Way(folders, way, 0, [name] + rest)
  {
  }

  /**
   On every path: everything up to the last folder that is missing is dropped, and the rest is a way
   of existing folders from the top down to the folder reached.
   */
  lemma {:induction false} ReachedExactly(folders: Tree, dirs: seq<Text>) returns (k: nat, way: seq<Folder>)
    requires NoZeroIds(folders)
    ensures k <= |dirs| && Way(folders, way, 0, dirs[k..]) && Reached(folders, 0, dirs) == End(way, 0)
    ensures k > 0 ==> Missing(folders, Reached(folders, 0, dirs[..k - 1]), dirs[k - 1])
    decreases |dirs|
  {
    hide Way, Missing, Reached, FindFolderId;
    if dirs == [] {
      k, way := EmptyWay(folders);
      assert dirs[k..] == [];
    } else {
      var init, last := dirs[..|dirs| - 1], dirs[|dirs| - 1];
      assert dirs == init + [last];
      ReachedNext(folders, init, last);
      NotFound(folders, Reached(folders, 0, init), last);
      if FindFolderId(folders, Reached(folders, 0, init), last) == 0 {
        k, way := EmptyWay(folders);
        k := |dirs|;
        assert dirs[k..] == [];
      } else {
        k, way := ReachedExactly(folders, init);
        var f :| f in Elems(folders) && f.parent_id == End(way, 0) && f.name == last
          && f.folder_id == FindFolderId(folders, Reached(folders, 0, init), last);
        assert dirs[k..] == init[k..] + [last];
        WayNext(folders, way, 0, init[k..], f);
        assert k > 0 ==> init[..k - 1] == dirs[..k - 1];
        way := way + [f];
      }
    }
  }

  /** Back at the top: there are no folders in the path, or the last of them is missing. */
  lemma ReachedTop(folders: Tree, dirs: seq<Text>)
    requires NoZeroIds(folders)
    ensures Reached(folders, 0, dirs) == 0 <==>
      dirs == [] || Missing(folders, Reached(folders, 0, dirs[..|dirs| - 1]), dirs[|dirs| - 1])
  {
    if dirs != [] {
      var init, last := dirs[..|dirs| - 1], dirs[|dirs| - 1];
      assert dirs == init + [last];
      ReachedNext(folders, init, last);
      NotFound(folders, Reached(folders, 0, init), last);
    }
  }

  // ----- what a lookup finds

  /** The file with the last name in the folder reached, else that folder itself. */
  lemma {:induction false} FollowExactly(s: Text, id: Handle, folders: Tree, files: seq<File>)
    ensures var parent := Reached(folders, id, Dirs(s));
      var f := FileNamed(files, parent, LastName(s));
      Follow(s, id, folders, files) == if f.Some? then f.value.item_id else parent
    decreases |s|
  {
    var part := Until(s, BACKSLASH);
    if |part| == |s| {
      assert part == s;
    } else {
      FollowExactly(s[|part| + 1..], FindFolderId(folders, id, part), folders, files);
    }
  }

  /** What `IdOf` finds for a path behind its first backslash. */
  lemma LookupExactly(s: Text, folders: Tree, files: seq<File>)
    ensures var parent := Reached(folders, 0, Dirs(s));
      var f := FileNamed(files, parent, LastName(s));
      IdOf([BACKSLASH] + s, folders, files) == if f.Some? then f.value.item_id else parent
  {
    assert ([BACKSLASH] + s)[1..] == s;
    FollowExactly(s, 0, folders, files);
  }

  /** 0 comes out exactly when the lookup is back at the top in the end and no file there has the last name. */
  lemma ZeroExactly(s: Text, folders: Tree, files: seq<File>)
    requires NoZeroIds(folders) && forall f :: f in files ==> f.item_id != 0
    ensures IdOf([BACKSLASH] + s, folders, files) == 0 <==>
      && (Dirs(s) == [] || Missing(folders, Reached(folders, 0, Dirs(s)[..|Dirs(s)| - 1]), Dirs(s)[|Dirs(s)| - 1]))
      && FileNamed(files, 0, LastName(s)).None?
  {
    LookupExactly(s, folders, files);
    ReachedTop(folders, Dirs(s));
  }

  /** There is a file at the path: all its folders are there, and the file is in the last of them. */
  ghost predicate IsThere(s: Text, folders: Tree, files: seq<File>) {
    exists way :: Way(folders, way, 0, Dirs(s)) && FileNamed(files, End(way, 0), LastName(s)).Some?
  }

  /**
   The documentation wants 0 exactly when there is no file at the path. That is what happens if and only
   if there is one, or the path ends at the top again where no file has the last name.
   */
  lemma DocumentedExactly(s: Text, folders: Tree, files: seq<File>)
    requires UniqueNames(folders) && NoZeroIds(folders) && forall f :: f in files ==> f.item_id != 0
    ensures (IdOf([BACKSLASH] + s, folders, files) == 0 <==> !IsThere(s, folders, files)) <==>
      || IsThere(s, folders, files)
      || (Reached(folders, 0, Dirs(s)) == 0 && FileNamed(files, 0, LastName(s)).None?)
  {
    LookupExactly(s, folders, files);
    if IsThere(s, folders, files) {
      var way :| Way(folders, way, 0, Dirs(s)) && FileNamed(files, End(way, 0), LastName(s)).Some?;
      ReachedByWay(folders, way, 0, Dirs(s));
    }
  }

  /** The folders of a trail are a way with the names of the trail's path. */
  lemma {:induction false} TrailParts(trail: seq<Folder>, name: Text)
    requires BACKSLASH !in name && forall i :: 0 <= i < |trail| ==> BACKSLASH !in trail[i].name
    ensures |Dirs(PathOf(trail, name))| == |trail| && LastName(PathOf(trail, name)) == name
    ensures forall i :: 0 <= i < |trail| ==> Dirs(PathOf(trail, name))[i] == trail[i].name
  {
    if trail == [] {
      OnePart(name);
    } else {
      PartsOf(trail[0].name, PathOf(trail[1..], name));
      TrailParts(trail[1..], name);
    }
  }

  /** What a folder's path and a name lead to: the folder, and the name as the last part. */
  lemma TrailReached(folders: Tree, list: seq<Folder>, root: Handle, parent: Handle, name: Text)
    requires Sound(folders, list, root) && UniqueNames(folders) && PlainNames(folders) && BACKSLASH !in name
    requires TrailTo(folders, parent).Some? && (parent == 0 || root == 0)
    ensures var s := PathOf(TrailTo(folders, parent).value, name);
      Reached(folders, 0, Dirs(s)) == parent && LastName(s) == name
  {
    var trail := TrailTo(folders, parent).value;
    if parent != 0 {
      TrailIsChain(folders, list, root, parent);
      forall i | 0 <= i < |trail| ensures trail[i] in Elems(folders) { TrailInside(folders, parent, i); }
    }
    TrailParts(trail, name);
    ReachedByWay(folders, trail, 0, Dirs(PathOf(trail, name)));
  }

  /** Folders that exist and a name: the file of that name in the last folder, or that folder's own id. */
  lemma LookupInFolder(folders: Tree, list: seq<Folder>, root: Handle, parent: Handle, name: Text, files: seq<File>)
    requires Sound(folders, list, root) && UniqueNames(folders) && PlainNames(folders) && BACKSLASH !in name
    requires TrailTo(folders, parent).Some? && (parent == 0 || root == 0)
    ensures IdOf([BACKSLASH] + PathOf(TrailTo(folders, parent).value, name), folders, files)
         == var f := FileNamed(files, parent, name); if f.Some? then f.value.item_id else parent
  {
    TrailReached(folders, list, root, parent, name);
    LookupExactly(PathOf(TrailTo(folders, parent).value, name), folders, files);
  }

  /** The path of a file leads back to the file. */
  lemma PathRoundTrip(f: File, folders: Tree, list: seq<Folder>, root: Handle, files: seq<File>)
    requires Sound(folders, list, root) && UniqueNames(folders) && PlainNames(folders)
    requires f in files && UniqueFiles(files) && BACKSLASH !in f.filename
    requires FilepathOf(f.item_id, folders, files, root).Some?
    ensures IdOf(FilepathOf(f.item_id, folders, files, root).value, folders, files) == f.item_id
  {
    hide Sound, UniqueNames, PlainNames, Trail, PathOf, IdOf;
    assert FindFile(files, f.item_id) == Some(f);
    LookupInFolder(folders, list, root, f.parent_id, f.filename, files);
  }

  /** A missing file in an existing folder is reported by 0 exactly when it was looked for at the top. */
  lemma MissingFile(folders: Tree, list: seq<Folder>, parent: Handle, name: Text, files: seq<File>)
    requires Sound(folders, list, 0) && UniqueNames(folders) && PlainNames(folders) && BACKSLASH !in name
    requires TrailTo(folders, parent).Some? && FileNamed(files, parent, name).None?
    ensures IdOf([BACKSLASH] + PathOf(TrailTo(folders, parent).value, name), folders, files) == 0 <==> parent == 0
  {
    TrailReached(folders, list, 0, parent, name);
    LookupExactly(PathOf(TrailTo(folders, parent).value, name), folders, files);
  }

  /** Whatever stands in front of a missing folder, it and the folder are passed over. */
  lemma MissingFolder(folders: Tree, front: seq<Text>, name: Text, rest: seq<Text>)
    requires NoZeroIds(folders) && Missing(folders, Reached(folders, 0, front), name)
    ensures Reached(folders, 0, front + [name] + rest) == Reached(folders, 0, rest)
  {
    NotFound(folders, Reached(folders, 0, front), name);
    ReachedNext(folders, front, name);
    ReachedConcat(folders, 0, front + [name], rest);
  }

  /** So a missing folder in front of the path of a file gives that file, though there is nothing at the path. */
  lemma WrongFile(f: File, folders: Tree, list: seq<Folder>, files: seq<File>, name: Text)
    requires Sound(folders, list, 0) && UniqueNames(folders) && PlainNames(folders)
    requires f in files && UniqueFiles(files) && BACKSLASH !in f.filename
    requires TrailTo(folders, f.parent_id).Some?
    requires BACKSLASH !in name && Missing(folders, 0, name)
    ensures var s := name + [BACKSLASH] + PathOf(TrailTo(folders, f.parent_id).value, f.filename);
      !IsThere(s, folders, files) && IdOf([BACKSLASH] + s, folders, files) == f.item_id
  {
    hide Reached, Dirs, LastName, PathOf, Trail, Follow, Way, Missing, FindFolderId, Elems;
    var rest := PathOf(TrailTo(folders, f.parent_id).value, f.filename);
    var s := name + [BACKSLASH] + rest;
    PartsOf(name, rest);
    TrailReached(folders, list, 0, f.parent_id, f.filename);
    assert [] + [name] + Dirs(rest) == Dirs(s);
    var k, top := EmptyWay(folders);
    MissingFolder(folders, [], name, Dirs(rest));
    LookupExactly(s, folders, files);
    forall way ensures !Way(folders, way, 0, Dirs(s)) { NoWay(folders, way, name, Dirs(rest)); }
  }
}
