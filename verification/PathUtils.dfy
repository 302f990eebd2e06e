/** Slash-separated paths: the search of the folder hierarchy that skips what cannot match. */
module PathUtils {
  import opened FolderForest
  import opened SplPaths
  import opened Text
  import opened Wrappers

  /** What the search returns when there is no such folder. */
  const NOT_FOUND: Handle := 0xFFFF_FFFF

  function Lower(u: Unit): Unit {
    if 0x41 <= u <= 0x5A then u + 0x20 else u
  }

  function Fold(t: Text): (r: Text)
    ensures |r| == |t| && forall i :: 0 <= i < |t| ==> r[i] == Lower(t[i])
  {
    if t == [] then [] else [Lower(t[0])] + Fold(t[1..])
  }

  function Joined(parent: Text, name: Text): Text {
    parent + [SLASH] + name
  }

  /** Children are searched only below a folder whose path starts the one looked for. */
  function LookupFolderId(folder: Tree, path: Text, parent: Text): Handle {
    if path == [SLASH] then 0
    else
      match folder
      case Leaf => NOT_FOUND
      case Node(f, child, sibling) =>
        var current := Joined(parent, f.name);
        if Fold(path) == Fold(current) then f.folder_id
        else
          var ret := if Fold(current) <= Fold(path) then LookupFolderId(child, path, current) else NOT_FOUND;
          if ret != NOT_FOUND then ret else LookupFolderId(sibling, path, parent)
  }

  /** A folder's full path and its id. */
  datatype Entry = Entry(path: Text, id: Handle)

  /** All folders with their full paths, in the order of the unpruned search. */
  function FullPaths(folder: Tree, parent: Text): seq<Entry> {
    match folder
    case Leaf => []
    case Node(f, child, sibling) =>
      [Entry(Joined(parent, f.name), f.folder_id)] + FullPaths(child, Joined(parent, f.name)) +
        FullPaths(sibling, parent)
  }

  function FirstMatch(entries: seq<Entry>, path: Text): Handle {
    if entries == [] then NOT_FOUND
    else if Fold(entries[0].path) == Fold(path) then entries[0].id
    else FirstMatch(entries[1..], path)
  }

  ghost predicate NoSentinel(folder: Tree) {
    forall f :: f in Elems(folder) ==> f.folder_id != NOT_FOUND
  }

  lemma {:induction false} FoldConcat(a: Text, b: Text)
    ensures Fold(a + b) == Fold(a) + Fold(b)
  {
  }

  lemma {:induction false} MatchConcat(a: seq<Entry>, b: seq<Entry>, path: Text)
    requires forall e :: e in a ==> e.id != NOT_FOUND
    ensures FirstMatch(a + b, path) ==
      if FirstMatch(a, path) != NOT_FOUND then FirstMatch(a, path)
      else FirstMatch(b, path)
  {
    if a == [] {
      assert a + b == b;
    } else {
      assert (a + b)[1..] == a[1..] + b;
      assert a[0] in a;
      MatchConcat(a[1..], b, path);
    }
  }

  lemma {:induction false} NoMatch(entries: seq<Entry>, path: Text)
    requires forall e :: e in entries ==> Fold(e.path) != Fold(path)
    ensures FirstMatch(entries, path) == NOT_FOUND
  {
    if entries != [] {
      assert entries[0] in entries;
      NoMatch(entries[1..], path);
    }
  }

  /** Every full path continues the parent's with a slash, one of the sibling names, and nothing or another slash. */
  lemma {:induction false} EntryHead(folder: Tree, parent: Text, e: Entry) returns (g: Folder, rest: Text)
    requires e in FullPaths(folder, parent)
    ensures g in Siblings(folder) && (rest == [] || rest[0] == SLASH)
    ensures e.path == Joined(parent, g.name) + rest
  {
    var Node(f, c, s) := folder;
    if e == Entry(Joined(parent, f.name), f.folder_id) {
      g, rest := f, [];
    } else if e in FullPaths(c, Joined(parent, f.name)) {
      var h, tail := EntryHead(c, Joined(parent, f.name), e);
      g, rest := f, [SLASH] + h.name + tail;
      assert e.path == Joined(parent, f.name) + rest;
    } else {
      g, rest := EntryHead(s, parent, e);
    }
  }

  lemma {:induction false} EntryIds(folder: Tree, parent: Text, e: Entry)
    requires e in FullPaths(folder, parent) && NoSentinel(folder)
    ensures e.id != NOT_FOUND
  {
    var Node(f, c, s) := folder;
    if e in FullPaths(c, Joined(parent, f.name)) {
      EntryIds(c, Joined(parent, f.name), e);
    } else if e in FullPaths(s, parent) {
      EntryIds(s, parent, e);
    }
  }

  /** Below a folder that does not start the path there is nothing to find. */
  lemma NothingBelow(child: Tree, current: Text, path: Text)
    requires !(Fold(current) <= Fold(path))
    ensures FirstMatch(FullPaths(child, current), path) == NOT_FOUND
  {
    hide Fold, FullPaths;
    forall e | e in FullPaths(child, current) ensures Fold(e.path) != Fold(path) {
      var g, rest := EntryHead(child, current, e);
      assert e.path == current + ([SLASH] + g.name + rest);
      FoldConcat(current, [SLASH] + g.name + rest);
    }
    NoMatch(FullPaths(child, current), path);
  }

  /** Skipping never changes the answer: it is the first of all folders whose path matches. */
  lemma {:induction false} PruningIsSafe(folder: Tree, path: Text, parent: Text)
    requires NoSentinel(folder) && path != [SLASH]
    ensures LookupFolderId(folder, path, parent) == FirstMatch(FullPaths(folder, parent), path)
  {
    match folder
    case Leaf =>
    case Node(f, c, s) =>
      var current := Joined(parent, f.name);
      PruningIsSafe(c, path, current);
      PruningIsSafe(s, path, parent);
      if !(Fold(current) <= Fold(path)) {
        NothingBelow(c, current, path);
      }
      var self, below, after := [Entry(current, f.folder_id)], FullPaths(c, current), FullPaths(s, parent);
      forall e | e in below ensures e.id != NOT_FOUND { EntryIds(c, current, e); }
      assert f in Elems(folder);
      MatchConcat(self + below, after, path);
      MatchConcat(self, below, path);
      assert self[1..] == [];
  }

  // ----- a folder's own path

  /** Names hold no slash, and no two siblings' names differ only in case. */
  ghost predicate Apart(folder: Tree) {
    match folder
    case Leaf => true
    case Node(f, c, s) =>
      SLASH !in f.name && (forall g :: g in Siblings(s) ==> Fold(g.name) != Fold(f.name)) && Apart(c) && Apart(s)
  }

  lemma {:induction false} ApartNames(folder: Tree, g: Folder)
    requires Apart(folder) && g in Siblings(folder)
    ensures SLASH !in g.name
  {
    var Node(f, c, s) := folder;
    if g != f {
      ApartNames(s, g);
    }
  }

  /** Paths that go on with different names do not match. */
  lemma DifferentNames(parent: Text, a: Text, restA: Text, b: Text, restB: Text)
    requires SLASH !in a && SLASH !in b && Fold(a) != Fold(b)
    requires (restA == [] || restA[0] == SLASH) && (restB == [] || restB[0] == SLASH)
    ensures Fold(Joined(parent, a) + restA) != Fold(Joined(parent, b) + restB)
  {
    var s := parent + [SLASH];
    assert Joined(parent, a) + restA == s + (a + restA) && Joined(parent, b) + restB == s + (b + restB);
    FoldConcat(s, a + restA);
    FoldConcat(s, b + restB);
    FoldConcat(a, restA);
    FoldConcat(b, restB);
    if Fold(Joined(parent, a) + restA) == Fold(Joined(parent, b) + restB) {
      var x := Fold(Joined(parent, a) + restA);
      assert x[|s|..] == Fold(a) + Fold(restA) == Fold(b) + Fold(restB);
      FoldSlash(a);
      FoldSlash(b);
      UntilAll(Fold(a), SLASH, Fold(restA));
      UntilAll(Fold(b), SLASH, Fold(restB));
    }
  }

  lemma FoldSlash(t: Text)
    requires SLASH !in t
    ensures SLASH !in Fold(t)
  {
    forall i | 0 <= i < |t| ensures Fold(t)[i] != SLASH {
      assert t[i] in t;
    }
  }

  /** Each full path is the first, and so the only, match for itself. */
  lemma {:induction false} MatchesItself(folder: Tree, parent: Text, e: Entry)
    requires NoSentinel(folder) && Apart(folder) && e in FullPaths(folder, parent)
    ensures FirstMatch(FullPaths(folder, parent), e.path) == e.id
  {
    var Node(f, c, s) := folder;
    var current := Joined(parent, f.name);
    var self, below, after := [Entry(current, f.folder_id)], FullPaths(c, current), FullPaths(s, parent);
    forall x: Entry | x in self + below ensures x.id != NOT_FOUND { EntryIds(folder, parent, x); }
    MatchConcat(self + below, after, e.path);
    MatchConcat(self, below, e.path);
    if e in below {
      var g, rest := EntryHead(c, current, e);
      assert |e.path| > |current|;
      MatchesItself(c, current, e);
      NoMatch(self, e.path);
    } else if e in after {
      MatchesItself(s, parent, e);
      forall x: Entry | x in self + below ensures Fold(x.path) != Fold(e.path) {
        DifferentBranches(folder, parent, x, e);
      }
      NoMatch(self, e.path);
      NoMatch(below, e.path);
    } else {
      assert e == self[0];
    }
  }

  lemma DifferentBranches(folder: Tree, parent: Text, x: Entry, e: Entry)
    requires folder.Node? && Apart(folder) && e in FullPaths(folder.sibling, parent)
    requires var current := Joined(parent, folder.folder.name);
      x == Entry(current, folder.folder.folder_id) || x in FullPaths(folder.child, current)
    ensures Fold(x.path) != Fold(e.path)
  {
    hide Fold, Until;
    var Node(f, c, s) := folder;
    var current := Joined(parent, f.name);
    var g, rest := EntryHead(s, parent, e);
    ApartNames(s, g);
    if x in FullPaths(c, current) {
      var h, tail := EntryHead(c, current, x);
      assert x.path == current + ([SLASH] + h.name + tail);
      DifferentNames(parent, f.name, [SLASH] + h.name + tail, g.name, rest);
    } else {
      assert x.path == current + [];
      DifferentNames(parent, f.name, [], g.name, rest);
    }
  }

  /**
   Looking up a folder's full path gives its id, except for a nameless folder at the top, whose path is
   the root's.
   */
  lemma OwnPath(folders: Tree, e: Entry)
    requires NoSentinel(folders) && Apart(folders) && e in FullPaths(folders, [])
    ensures LookupFolderId(folders, e.path, []) == if e.path == [SLASH] then 0 else e.id
  {
    if e.path != [SLASH] {
      PruningIsSafe(folders, e.path, []);
      MatchesItself(folders, [], e);
    }
  }

  // ----- files

  /** Without the slashes at the end. */
  function Strip(t: Text): (r: Text)
    ensures r <= t && (r == [] || r[|r| - 1] != SLASH)
  {
    if t != [] && t[|t| - 1] == SLASH then Strip(t[..|t| - 1]) else t
  }

  /** The part up to and including the last slash. */
  function UpToLastSlash(t: Text): (r: Text)
    ensures r <= t && (r == [] || r[|r| - 1] == SLASH) && SLASH !in t[|r|..]
  {
    if t == [] || t[|t| - 1] == SLASH then t else UpToLastSlash(t[..|t| - 1])
  }

  /** dirname of an absolute path. */
  function Dirname(path: Text): Text {
    var dir := Strip(UpToLastSlash(Strip(path)));
    if dir == [] then [SLASH] else dir
  }

  /** basename of an absolute path. */
  function Basename(path: Text): Text {
    var t := Strip(path);
    if t == [] then [SLASH] else t[|UpToLastSlash(t)|..]
  }

  function FileLike(files: seq<File>, parent: Option<Handle>, name: Text): (r: Option<File>)
    ensures r.Some? ==> r.value in files && Fold(r.value.filename) == Fold(name)
    ensures r.Some? && parent.Some? ==> r.value.parent_id == parent.value
    ensures r.None? ==> forall f :: f in files && (parent.Some? ==> f.parent_id == parent.value) ==>
      Fold(f.filename) != Fold(name)
  {
    if files == [] then None
    else if (parent.Some? ==> files[0].parent_id == parent.value) && Fold(files[0].filename) == Fold(name) then
      Some(files[0])
    else FileLike(files[1..], parent, name)
  }

  /** `number` is what strtoul makes of a path that does not start with a slash. */
  function ItemOf(path: Text, number: Handle, files: seq<File>, folders: Tree): Handle {
    if path == [] || path[0] != SLASH then
      if number != 0 then number
      else
        var f := FileLike(files, None, path);
        if f.Some? then f.value.item_id else 0
    else
      var id := LookupFolderId(folders, path, []);
      if id != NOT_FOUND then id
      else
        var f := FileLike(files, Some(LookupFolderId(folders, Dirname(path), [])), Basename(path));
        if f.Some? then f.value.item_id else NOT_FOUND
  }

  method ParsePath(path: Text, number: Handle, files: seq<File>, folders: Tree) returns (id: Handle)
    ensures id == ItemOf(path, number, files, folders)
  {
    hide Fold, Dirname, Basename, LookupFolderId;
    if path == [] || path[0] != SLASH {
      id := number;
      if id == 0 {
        for i := 0 to |files|
          invariant FileLike(files, None, path) == FileLike(files[i..], None, path)
        {
          if Fold(files[i].filename) == Fold(path) {
            return files[i].item_id;
          }
        }
      }
      return id;
    }
    id := LookupFolderId(folders, path, []);
    if id == NOT_FOUND {
      var parent, filename := Dirname(path), Basename(path);
      var parentId := LookupFolderId(folders, parent, []);
      for i := 0 to |files|
        invariant FileLike(files, Some(parentId), filename) == FileLike(files[i..], Some(parentId), filename)
      {
        if files[i].parent_id == parentId {
          if Fold(files[i].filename) == Fold(filename) {
            return files[i].item_id;
          }
        }
      }
    }
  }

  lemma {:induction false} LastPartOf(dir: Text, name: Text)
    requires SLASH !in name
    ensures UpToLastSlash(dir + [SLASH] + name) == dir + [SLASH]
  {
    var t := dir + [SLASH] + name;
    if name == [] {
      assert t == dir + [SLASH];
    } else {
      assert t[|t| - 1] == name[|name| - 1] && name[|name| - 1] in name;
      assert t[..|t| - 1] == dir + [SLASH] + name[..|name| - 1];
      LastPartOf(dir, name[..|name| - 1]);
    }
  }

  /** The path of a file splits into the folder's path and the file name. */
  lemma SplitPath(dir: Text, name: Text)
    requires SLASH !in name && name != [] && (dir == [] || dir[|dir| - 1] != SLASH)
    ensures Dirname(Joined(dir, name)) == (if dir == [] then [SLASH] else dir) && Basename(Joined(dir, name)) == name
  {
    var t := Joined(dir, name);
    assert t[|t| - 1] == name[|name| - 1] && name[|name| - 1] in name;
    assert Strip(t) == t;
    LastPartOf(dir, name);
    assert (dir + [SLASH])[..|dir|] == dir;
    assert Strip(dir + [SLASH]) == Strip(dir) == dir;
  }

  /**
   A file is found under its folder's path and its own name, unless a folder goes by that path: then
   the folder is meant.
   */
  lemma FileByPath(f: File, e: Entry, files: seq<File>, folders: Tree)
    requires NoSentinel(folders) && Apart(folders)
    requires f.filename != [] && SLASH !in f.filename && f in files
    requires f.parent_id == 0 ==> e.path == []
    requires f.parent_id != 0 ==>
      e in FullPaths(folders, []) && e.id == f.parent_id && e.path != [] && e.path[|e.path| - 1] != SLASH
    requires forall g :: g in files && g.parent_id == f.parent_id && Fold(g.filename) == Fold(f.filename) ==> g == f
    ensures ItemOf(Joined(e.path, f.filename), 0, files, folders) ==
      var id := FirstMatch(FullPaths(folders, []), Joined(e.path, f.filename));
      if id != NOT_FOUND then id else f.item_id
  {
    hide FirstMatch, Dirname, Basename, Strip, UpToLastSlash, Apart, Fold;
    var path := Joined(e.path, f.filename);
    if e.path != [] {
      var g, rest := EntryHead(folders, [], e);
      assert e.path[0] == SLASH;
      OwnPath(folders, e);
    }
    assert |path| > 1 && path[0] == SLASH;
    PruningIsSafe(folders, path, []);
    SplitPath(e.path, f.filename);
    assert LookupFolderId(folders, Dirname(path), []) == f.parent_id;
    var found := FileLike(files, Some(f.parent_id), f.filename);
    assert found == Some(f);
  }
}
