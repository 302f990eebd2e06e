/** Track ids and backslash-separated paths: one as the other, over the folder hierarchy and the file list. */
module SplPaths {
  import opened FolderForest
  import opened FolderLoops
  import opened FolderTrail
  import opened Text
  import opened Wrappers

  datatype File = File(item_id: Handle, parent_id: Handle, filename: Text)

  /** Size of the buffer that a path is put together in. */
  const M: nat := 1024

  function FindFile(files: seq<File>, id: Handle): (r: Option<File>)
    ensures r.Some? ==> r.value in files && r.value.item_id == id
    ensures r.None? ==> forall f :: f in files ==> f.item_id != id
  {
    if files == [] then None else if files[0].item_id == id then Some(files[0]) else FindFile(files[1..], id)
  }

  function FileNamed(files: seq<File>, parent: Handle, name: Text): (r: Option<File>)
    ensures r.Some? ==> r.value in files && r.value.parent_id == parent && r.value.filename == name
    ensures r.None? ==> forall f :: f in files ==> f.parent_id != parent || f.filename != name
  {
    if files == [] then None
    else if files[0].parent_id == parent && files[0].filename == name then Some(files[0])
    else FileNamed(files[1..], parent, name)
  }

  // ----- from an id to a path

  /** The names along `trail` and the file name, without the backslash in front. */
  function PathOf(trail: seq<Folder>, filename: Text): Text {
    if trail == [] then filename else trail[0].name + [BACKSLASH] + PathOf(trail[1..], filename)
  }

  /** The folders from the root down to `parent`; none when the parent is the root itself. */
  function TrailTo(folders: Tree, parent: Handle): Option<seq<Folder>> {
    if parent == 0 then Some([]) else Trail(folders, parent)
  }

  /** The path of a file: there is one when its parents lead up to handle 0. */
  function FilePath(f: File, folders: Tree, root: Handle): Option<Text> {
    var trail := TrailTo(folders, f.parent_id);
    if trail.None? || (trail.value != [] && root != 0) then None
    else Some([BACKSLASH] + PathOf(trail.value, f.filename))
  }

  function FilepathOf(track: Handle, folders: Tree, files: seq<File>, root: Handle): Option<Text> {
    var f := FindFile(files, track);
    if f.None? then None else FilePath(f.value, folders, root)
  }

  /** What is put in the buffer fits it, with the terminator and the leading backslash. */
  predicate FitsPath(f: File, folders: Tree) {
    var trail := TrailTo(folders, f.parent_id);
    |PathOf(if trail.None? then [] else trail.value, f.filename)| + 2 <= M
  }

  /** A hierarchy as the folder list gives it: ids distinct, and neither 0 nor the root's. */
  ghost predicate Sound(folders: Tree, list: seq<Folder>, root: Handle) {
    && IsForest(folders, list, root)
    && Distinct(Preorder(folders))
    && forall f :: f in Elems(folders) ==> f.folder_id != 0 && f.folder_id != root
  }

  /** Every hierarchy that the folder list returns is sound, unless it hangs below the wrong root and holds handle 0. */
  lemma ListedIsSound(folders: Tree, list: seq<Folder>, root: Handle)
    requires IsForest(folders, list, root) && Distinct(Preorder(folders))
    requires root == 0 || forall f :: f in Elems(folders) ==> f.folder_id != 0
    ensures Sound(folders, list, root)
  {
    forall f | f in Elems(folders) ensures f.folder_id != root {
      ElemsAreReachable(folders, list, root, f);
      var path :| Chain(list, path, root) && path[|path| - 1] == f;
      NoneSmaller(folders, list, root, path);
    }
  }

  /** Puts a folder name and a backslash in front of what is in the buffer. */
  method Prepend(w: array<Unit>, iw0: nat, name: Text) returns (iw: nat)
    requires |name| + 1 <= iw0 <= w.Length
    modifies w
    ensures iw == iw0 - (|name| + 1) && w[iw..] == name + [BACKSLASH] + old(w[iw0..])
  {
    iw := iw0 - (|name| + 1);
    Strcpy(w, iw, name);
    ghost var copied := w[iw..];
    w[iw + |name|] := BACKSLASH;
    assert w[iw..] == copied[|name| := BACKSLASH];
  }

  /** The climb is `k` folders below the root of `trail`, and the buffer holds the path from there down. */
  ghost predicate Climbing(trail: Option<seq<Folder>>, root: Handle, f: File, k: nat, id: Handle, path: seq<Unit>) {
    match trail
    case None => id == f.parent_id
    case Some(trail) =>
      && k <= |trail|
      && id == (if k > 0 then trail[k - 1].folder_id else if trail == [] then 0 else root)
      && path == PathOf(trail[k..], f.filename) + [0]
  }

  lemma FindNext(files: seq<File>, n: nat, id: Handle)
    requires n <= |files|
    ensures FindFile(files[n..], id) ==
      if n == |files| then None else if files[n].item_id == id then Some(files[n]) else FindFile(files[n + 1..], id)
  {
    if n < |files| {
      assert files[n..][1..] == files[n + 1..];
    }
  }

  method DiscoverFilepathFromId(track: Handle, folders: Tree, files: seq<File>, ghost list: seq<Folder>,
    ghost root: Handle)
    returns (p: Option<Text>)
    requires Sound(folders, list, root)
    requires FindFile(files, track).Some? ==> FitsPath(FindFile(files, track).value, folders)
    ensures p == FilepathOf(track, folders, files, root)
  {
    hide Sound, FilePath, FitsPath, FindFile;
    var n := 0;
    assert files[0..] == files;
    while n < |files| && files[n].item_id != track
      invariant n <= |files| && FindFile(files, track) == FindFile(files[n..], track)
    {
      FindNext(files, n, track);
      n := n + 1;
    }
    FindNext(files, n, track);
    if n == |files| {
      return None;
    }
    p := ClimbToRoot(files[n], folders, list, root);
  }

  /** Fills a buffer from the right: the file name, then the folders from its parent up. */
  method ClimbToRoot(f: File, folders: Tree, ghost list: seq<Folder>, ghost root: Handle) returns (p: Option<Text>)
    requires Sound(folders, list, root) && FitsPath(f, folders)
    ensures p == FilePath(f, folders, root)
  {
    hide Sound, FindFolder, Trail, PathOf;
    var w := new Unit[M];
    ghost var trail := TrailTo(folders, f.parent_id);
    ghost var way := if trail.None? then [] else trail.value;
    ghost var k: nat := |way|;
    FileNameOnly(way, f.filename);
    var iw: nat := M - (|f.filename| + 1);
    Strcpy(w, iw, f.filename);
    var id := f.parent_id;
    while id != 0
      invariant iw <= M && Climbing(trail, root, f, k, id, w[iw..])
      decreases k
    {
      ClimbStep(folders, list, root, f, k, id, w[iw..]);
      var folder := FindFolder(folders, id);
      if folder.None? {
        return None;
      }
      PathGrows(trail.value, f.filename, k - 1);
      iw := Prepend(w, iw, folder.value.name);
      id, k := folder.value.parent_id, k - 1;
    }
    AtTop(folders, list, root, f, k, w[iw..]);
    assert w[iw..][..M - iw - 1] == w[iw..M - 1];
    p := FromTop(w, iw);
  }

  /** Prepends the leading backslash and copies the string out. */
  method FromTop(w: array<Unit>, iw: nat) returns (p: Option<Text>)
    requires 1 <= iw < w.Length
    modifies w
    ensures p == Some([BACKSLASH] + old(w[iw..w.Length - 1]))
  {
    ghost var below := w[iw..w.Length - 1];
    w[iw - 1] := BACKSLASH;
    assert w[iw - 1..w.Length - 1] == [BACKSLASH] + below;
    p := Some(w[iw - 1..w.Length - 1]);
  }

  lemma FileNameOnly(way: seq<Folder>, filename: Text)
    ensures PathOf(way[|way|..], filename) == filename && |filename| <= |PathOf(way, filename)|
  {
    PathGrows(way, filename, |way|);
    assert way[|way|..] == [];
  }

  /** The climb ends at handle 0 only when the whole path is in the buffer. */
  lemma AtTop(folders: Tree, list: seq<Folder>, root: Handle, f: File, k: nat, path: seq<Unit>)
    requires Sound(folders, list, root) && FitsPath(f, folders)
    requires Climbing(TrailTo(folders, f.parent_id), root, f, k, 0, path)
    ensures FilePath(f, folders, root).Some? && 1 <= |path| < M
    ensures [BACKSLASH] + path[..|path| - 1] == FilePath(f, folders, root).value
  {
    var way := TrailTo(folders, f.parent_id).value;
    if k > 0 {
      TrailInside(folders, f.parent_id, k - 1);
      assert false;
    }
    assert way[0..] == way;
  }

  lemma {:induction false} PathGrows(trail: seq<Folder>, filename: Text, k: nat)
    requires k <= |trail|
    ensures |PathOf(trail[k..], filename)| <= |PathOf(trail, filename)|
    ensures k < |trail| ==>
      PathOf(trail[k..], filename) == trail[k].name + [BACKSLASH] + PathOf(trail[k + 1..], filename)
  {
    if k < |trail| {
      assert trail[k..][1..] == trail[k + 1..];
    }
    if k > 0 {
      assert trail[1..][k - 1..] == trail[k..];
      PathGrows(trail[1..], filename, k - 1);
    } else {
      assert trail[k..] == trail;
    }
  }

  /** The next folder up is the next one of the trail, if the climb can go on at all. */
  lemma ClimbStep(folders: Tree, list: seq<Folder>, root: Handle, f: File, k: nat, id: Handle, path: seq<Unit>)
    requires Sound(folders, list, root) && id != 0
    requires Climbing(TrailTo(folders, f.parent_id), root, f, k, id, path)
    ensures var trail := TrailTo(folders, f.parent_id);
      if trail.None? || k == 0 then FindFolder(folders, id).None? && (trail.None? || (trail.value != [] && root != 0))
      else
        && FindFolder(folders, id) == Some(trail.value[k - 1])
        && trail.value[k - 1].parent_id == if k == 1 then root else trail.value[k - 2].folder_id
  {
    TrailFinds(folders, id);
    var trail := TrailTo(folders, f.parent_id);
    if trail.Some? && k > 0 {
      FindOnTrail(folders, f.parent_id, k - 1);
      TrailIsChain(folders, list, root, f.parent_id);
    }
  }

  /** A file has a path exactly when it lies at the top or its parent is in a hierarchy built from handle 0. */
  lemma HasPath(f: File, folders: Tree, files: seq<File>, root: Handle)
    requires FindFile(files, f.item_id) == Some(f)
    ensures FilepathOf(f.item_id, folders, files, root).Some? <==>
      f.parent_id == 0 || (root == 0 && exists g :: g in Elems(folders) && g.folder_id == f.parent_id)
  {
    TrailFinds(folders, f.parent_id);
    if g :| g in Elems(folders) && g.folder_id == f.parent_id {
      FindFolderComplete(folders, f.parent_id, g);
    }
  }

  // ----- from a path to an id

  /**
   The id of the folder with this name under `parent`: the folder itself, its siblings, then its
   children; 0 if none.
   */
  function FindFolderId(t: Tree, parent: Handle, name: Text): (id: Handle)
    ensures id != 0 ==> exists f :: f in Elems(t) && f.parent_id == parent && f.name == name && f.folder_id == id
  {
    match t
    case Leaf => 0
    case Node(f, c, s) =>
      if f.parent_id == parent && f.name == name then f.folder_id
      else
        var id := FindFolderId(s, parent, name);
        if id == 0 then FindFolderId(c, parent, name) else id
  }

  /** Follows the parts of `s` from folder `id` down; the last part is looked for among the files. */
  function Follow(s: Text, id: Handle, folders: Tree, files: seq<File>): Handle
    decreases |s|
  {
    var part := Until(s, BACKSLASH);
    if |part| == |s| then
      var f := FileNamed(files, id, part);
      if f.Some? then f.value.item_id else id
    else Follow(s[|part| + 1..], FindFolderId(folders, id, part), folders, files)
  }

  function IdOf(s: Text, folders: Tree, files: seq<File>): Handle {
    if s == [] || s[0] != BACKSLASH then 0 else Follow(s[1..], 0, folders, files)
  }

  /** `sc` is a copy of the path with a terminator for every backslash and one at the end. */
  ghost predicate Cut(sc: seq<Unit>, s: Text) {
    && |sc| == |s| + 1 && sc[|s|] == 0
    && forall i :: 0 <= i < |s| ==> sc[i] == if s[i] == BACKSLASH then 0 else s[i]
  }

  method Strlen(sc: array<Unit>, at: nat, ghost s: Text) returns (n: nat)
    requires Cut(sc[..], s) && 0 !in s && at <= |s|
    ensures at + n <= |s| && sc[at..at + n] == Until(s[at..], BACKSLASH) && n == |Until(s[at..], BACKSLASH)|
  {
    assert forall i :: 0 <= i < |s| ==> s[i] in s;
    n := 0;
    while sc[at + n] != 0
      invariant at + n <= |s| && sc[at..at + n] == s[at..at + n] && BACKSLASH !in s[at..at + n]
      decreases |s| - n
    {
      assert sc[..][at + n] == sc[at + n];
      n := n + 1;
    }
    assert sc[..][at + n] == 0;
    assert s[at..] == s[at..at + n] + s[at + n..];
    UntilAll(s[at..at + n], BACKSLASH, s[at + n..]);
  }

  /** Copies the path and puts a terminator for every backslash. */
  method CutParts(s: Text) returns (sc: array<Unit>)
    ensures fresh(sc) && Cut(sc[..], s)
  {
    var len := |s|;
    sc := new Unit[len + 1];
    forall i | 0 <= i <= len {
      sc[i] := if i == len then 0 else s[i];
    }
    for i := 0 to len
      invariant sc[len] == 0
      invariant forall j :: 0 <= j < i ==> sc[j] == if s[j] == BACKSLASH then 0 else s[j]
      invariant forall j :: i <= j < len ==> sc[j] == s[j]
    {
      if sc[i] == BACKSLASH {
        sc[i] := 0;
      }
    }
  }

  method DiscoverIdFromFilepath(s: Text, folders: Tree, files: seq<File>) returns (id: Handle)
    requires 0 !in s
    ensures id == IdOf(s, folders, files)
  {
    hide Cut, Follow;
    if s == [] || s[0] != BACKSLASH {
      return 0;
    }
    var len := |s|;
    var sc := CutParts(s);
    assert sc.Length == len + 1 by {
      CutLength(sc[..], s);
    }
    id := 0;
    var sci := 1;
    assert IdOf(s, folders, files) == Rest(s, 1, 0, folders, files);
    while sci != len + 1
      invariant 1 <= sci <= len + 1 && Cut(sc[..], s)
      invariant IdOf(s, folders, files) == Rest(s, sci, id, folders, files)
      decreases len + 1 - sci
    {
      sci, id := TakePart(sc, sci, s, id, folders, files);
    }
  }

  /** What following the path from position `at` in folder `id` gives; behind the terminator, the id reached. */
  function Rest(s: Text, at: nat, id: Handle, folders: Tree, files: seq<File>): Handle {
    if at <= |s| then Follow(s[at..], id, folders, files) else id
  }

  /** Looks up one part of the path and moves behind it. */
  method TakePart(sc: array<Unit>, sci: nat, s: Text, id: Handle, folders: Tree, files: seq<File>)
    returns (sci': nat, id': Handle)
    requires Cut(sc[..], s) && 0 !in s && sci <= |s|
    ensures sci < sci' <= |s| + 1
    ensures Rest(s, sci', id', folders, files) == Rest(s, sci, id, folders, files)
  {
    hide FindFolderId, FileNamed, Follow;
    var n := Strlen(sc, sci, s);
    FollowOnce(s[sci..], id, folders, files);
    if sci + n == |s| {
      id' := LastPart(sc[sci..sci + n], id, files);
    } else {
      id' := FindFolderId(folders, id, sc[sci..sci + n]);
      assert s[sci..][n + 1..] == s[sci + n + 1..];
    }
    sci' := sci + n + 1;
  }

  lemma FollowOnce(s: Text, id: Handle, folders: Tree, files: seq<File>)
    ensures var part := Until(s, BACKSLASH);
      Follow(s, id, folders, files) ==
        if |part| == |s| then
          var f := FileNamed(files, id, part);
          if f.Some? then f.value.item_id else id
        else Follow(s[|part| + 1..], FindFolderId(folders, id, part), folders, files)
  {
  }

  lemma CutLength(sc: seq<Unit>, s: Text)
    requires Cut(sc, s)
    ensures |sc| == |s| + 1
  {
  }

  /** The search of the file list for the last part of a path; without success the folder's id stands. */
  method LastPart(name: Text, parent: Handle, files: seq<File>) returns (id: Handle)
    ensures var f := FileNamed(files, parent, name); id == if f.Some? then f.value.item_id else parent
  {
    id := parent;
    for i := 0 to |files|
      invariant id == parent && FileNamed(files, parent, name) == FileNamed(files[i..], parent, name)
    {
      if files[i].parent_id == id && files[i].filename == name {
        id := files[i].item_id;
        return;
      }
    }
  }
}
