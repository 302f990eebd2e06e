/** How the path search reads its paths: letters, slashes, and which file a name without a slash stands for. */
module PathSpelled {
  import opened FolderForest
  import opened FolderTrail
  import opened PathUtils
  import opened SplPaths
  import opened Text
  import opened Wrappers

  // ----- letters

  /** The same unit, or the two cases of an ASCII letter. */
  ghost predicate SameLetter(a: Unit, b: Unit) {
    a == b || (0x41 <= a <= 0x5A && b == a + 32) || (0x41 <= b <= 0x5A && a == b + 32)
  }

  ghost predicate SameText(a: Text, b: Text) {
    |a| == |b| && forall i :: 0 <= i < |a| ==> SameLetter(a[i], b[i])
  }

  /** Comparison looks past the case of ASCII letters, and past nothing else. */
  lemma FoldExactly(a: Text, b: Text)
    ensures Fold(a) == Fold(b) <==> SameText(a, b)
  {
    if SameText(a, b) {
      forall i | 0 <= i < |a| ensures Fold(a)[i] == Fold(b)[i] {
        assert SameLetter(a[i], b[i]);
      }
    }
    if Fold(a) == Fold(b) {
      forall i | 0 <= i < |a| ensures SameLetter(a[i], b[i]) {
        assert Fold(a)[i] == Fold(b)[i];
      }
    }
  }

  // ----- full paths

  /** The names of a way of folders, a slash in front of each. */
  function Slashed(way: seq<Folder>): Text {
    if way == [] then [] else Slashed(way[..|way| - 1]) + [0x2F] + way[|way| - 1].name
  }

  lemma SlashedNext(way: seq<Folder>, f: Folder)
    ensures Slashed(way + [f]) == Joined(Slashed(way), f.name)
  {
    assert (way + [f])[..|way|] == way;
  }

  /** Every full path belongs to a way of folders from the root down. */
  lemma {:induction false} EntryHasWay(t: Tree, list: seq<Folder>, root: Handle, above: seq<Folder>, parent: Handle,
    e: Entry)
    returns (way: seq<Folder>)
    requires Complete(t, list) && AllUnder(list, Siblings(t), parent) && LeadsTo(list, root, above, parent)
    requires e in FullPaths(t, Slashed(above))
    ensures Chain(list, way, root) && e == Entry(Slashed(way), way[|way| - 1].folder_id)
  {
    hide Chain, LeadsTo, Slashed, Joined;
    var Node(f, c, s) := t;
    assert f in Siblings(t);
    OneMore(list, root, above, f, parent);
    SlashedNext(above, f);
    if e in FullPaths(c, Slashed(above + [f])) {
      KidsUnder(list, f.folder_id);
      way := EntryHasWay(c, list, root, above + [f], f.folder_id, e);
    } else if e in FullPaths(s, Slashed(above)) {
      assert Siblings(s) == Siblings(t)[1..];
      way := EntryHasWay(s, list, root, above, parent, e);
    } else {
      way := above + [f];
      NotEmpty(above, f);
    }
  }

  lemma NotEmpty(above: seq<Folder>, f: Folder)
    ensures var way := above + [f]; way != [] && way[|way| - 1] == f
  {
  }

  /** Every way of folders below some level of the hierarchy has its full path there. */
  lemma {:induction false} WayHasEntry(t: Tree, list: seq<Folder>, above: seq<Folder>, below: seq<Folder>)
    requires Complete(t, list) && below != [] && below[0] in Siblings(t)
    requires forall i :: 0 <= i < |below| ==> below[i] in list
    requires forall i :: 0 <= i < |below| - 1 ==> below[i + 1].parent_id == below[i].folder_id
    ensures Entry(Slashed(above + below), below[|below| - 1].folder_id) in FullPaths(t, Slashed(above))
    decreases t
  {
    hide Slashed, Joined;
    var Node(f, c, s) := t;
    SlashedNext(above, f);
    if below[0] != f {
      WayHasEntry(s, list, above, below);
    } else if |below| == 1 {
      assert below == [f];
    } else {
      KidsIn(list, f.folder_id, below[1]);
      assert above + [f] + below[1..] == above + below;
      WayHasEntry(c, list, above + [f], below[1..]);
    }
  }

  /**
   The full paths are those of the ways of folders from the root down, a slash and a name for each folder,
   and each stands for the last folder of its way.
   */
  lemma FullPathsExactly(folders: Tree, list: seq<Folder>, root: Handle, e: Entry)
    requires IsForest(folders, list, root)
    ensures e in FullPaths(folders, []) <==>
      exists way: seq<Folder> :: Chain(list, way, root) && e == Entry(Slashed(way), way[|way| - 1].folder_id)
  {
    if e in FullPaths(folders, []) {
      KidsUnder(list, root);
      assert Slashed([]) == [];
      var way := EntryHasWay(folders, list, root, [], root, e);
    }
    if way: seq<Folder> :| Chain(list, way, root) && e == Entry(Slashed(way), way[|way| - 1].folder_id) {
      KidsIn(list, root, way[0]);
      WayHasEntry(folders, list, [], way);
      assert [] + way == way;
    }
  }

  /** The path of the root alone is the root, whatever the folders. */
  lemma RootPath(folders: Tree, number: Handle, files: seq<File>)
    ensures ItemOf([0x2F], number, files, folders) == 0
  {
  }

  // ----- files by name

  ghost predicate Suits(f: File, parent: Option<Handle>, name: Text) {
    (parent == None || parent == Some(f.parent_id)) && SameText(f.filename, name)
  }

  ghost predicate SuitsAt(files: seq<File>, parent: Option<Handle>, name: Text, f: File, n: nat) {
    n < |files| && files[n] == f && Suits(f, parent, name) && forall m :: 0 <= m < n ==> !Suits(files[m], parent, name)
  }

  lemma NextLike(files: seq<File>, parent: Option<Handle>, name: Text)
    requires files != []
    ensures FileLike(files, parent, name) ==
      if Suits(files[0], parent, name) then Some(files[0]) else FileLike(files[1..], parent, name)
  {
    FoldExactly(files[0].filename, name);
  }

  lemma SuitsStep(files: seq<File>, parent: Option<Handle>, name: Text, f: File, n: nat)
    requires files != []
    ensures SuitsAt(files, parent, name, f, n) <==>
      if n == 0 then f == files[0] && Suits(f, parent, name)
      else !Suits(files[0], parent, name) && SuitsAt(files[1..], parent, name, f, n - 1)
  {
    hide Suits;
    if n > 0 && SuitsAt(files[1..], parent, name, f, n - 1) && !Suits(files[0], parent, name) {
      assert forall m :: 0 < m < n ==> files[m] == files[1..][m - 1];
    }
  }

  /** The first file of the list with the name, in the folder if one is given. */
  lemma {:induction false} FileLikeIsFirst(files: seq<File>, parent: Option<Handle>, name: Text, f: File)
    ensures FileLike(files, parent, name) == Some(f) <==> exists n: nat :: SuitsAt(files, parent, name, f, n)
  {
    if files != [] {
      FileLikeIsFirst(files[1..], parent, name, f);
      NextLike(files, parent, name);
      forall n: nat ensures SuitsAt(files, parent, name, f, n) <==>
          if n == 0 then f == files[0] && Suits(f, parent, name)
          else !Suits(files[0], parent, name) && SuitsAt(files[1..], parent, name, f, n - 1)
      {
        SuitsStep(files, parent, name, f, n);
      }
      hide SuitsAt, Suits, FileLike;
      assert forall n: nat :: SuitsAt(files[1..], parent, name, f, n) && !Suits(files[0], parent, name) ==>
        SuitsAt(files, parent, name, f, n + 1);
      assert SuitsAt(files, parent, name, f, 0) <==> f == files[0] && Suits(f, parent, name);
    }
  }

  /**
   Without a slash in front: the number if it reads as one other than zero, else the first file of that name
   in any folder, else 0.
   */
  lemma NumberOrName(path: Text, number: Handle, files: seq<File>, folders: Tree)
    requires path == [] || path[0] != 0x2F
    ensures var id := ItemOf(path, number, files, folders);
      && (number != 0 ==> id == number)
      && (number == 0 ==> forall f, n: nat :: SuitsAt(files, None, path, f, n) ==> id == f.item_id)
      && (number == 0 && (forall f :: f in files ==> !SameText(f.filename, path)) ==> id == 0)
  {
    var found := FileLike(files, None, path);
    forall f, n: nat | SuitsAt(files, None, path, f, n) ensures found == Some(f) {
      FileLikeIsFirst(files, None, path, f);
    }
    if found.Some? {
      FoldExactly(found.value.filename, path);
    }
  }

  // ----- slashes at the end

  lemma {:induction false} SlashesStripped(t: Text, n: nat, slashes: Text)
    requires |slashes| == n && forall i :: 0 <= i < n ==> slashes[i] == 0x2F
    ensures PathUtils.Strip(t + slashes) == PathUtils.Strip(t)
    decreases n
  {
    if n == 0 {
      assert t + slashes == t;
    } else {
      assert (t + slashes)[..|t + slashes| - 1] == t + slashes[..n - 1];
      SlashesStripped(t, n - 1, slashes[..n - 1]);
    }
  }

  /** Slashes at the end of a path do not count. */
  lemma EndSlashes(path: Text, slashes: Text)
    requires forall i :: 0 <= i < |slashes| ==> slashes[i] == 0x2F
    ensures Dirname(path + slashes) == Dirname(path) && Basename(path + slashes) == Basename(path)
  {
    hide PathUtils.Strip;
    SlashesStripped(path, |slashes|, slashes);
  }

  /** With a slash in front: the folder of that path, else the first file of the last name in the folder before it. */
  lemma FolderOrFile(path: Text, number: Handle, files: seq<File>, folders: Tree)
    requires path != [] && path[0] == 0x2F
    ensures var id := ItemOf(path, number, files, folders);
      var folder := LookupFolderId(folders, path, []);
      var parent := Some(LookupFolderId(folders, Dirname(path), []));
      && (folder != 0xffff_ffff ==> id == folder)
      && (folder == 0xffff_ffff ==>
            && (forall f, n: nat :: SuitsAt(files, parent, Basename(path), f, n) ==> id == f.item_id)
            && ((forall f :: f in files ==> !Suits(f, parent, Basename(path))) ==> id == 0xffff_ffff))
  {
    hide Dirname, Basename, LookupFolderId;
    var parent := Some(LookupFolderId(folders, Dirname(path), []));
    var found := FileLike(files, parent, Basename(path));
    forall f, n: nat | SuitsAt(files, parent, Basename(path), f, n) ensures found == Some(f) {
      FileLikeIsFirst(files, parent, Basename(path), f);
    }
    if found.Some? {
      FoldExactly(found.value.filename, Basename(path));
    }
  }
}
