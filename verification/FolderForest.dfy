/**
 What the folder hierarchy is: the specification that the list surgery in FolderList is proved
 against, and that every reader of the hierarchy relies on.
 */
module FolderForest {
  import opened Text
  import opened Wrappers

  type Handle = h: int | 0 <= h < 0x1_0000_0000

  datatype Folder = Folder(folder_id: Handle, parent_id: Handle, storage_id: Handle, name: Text)

  /** A folder hierarchy in the first-child, next-sibling shape that the C structure has. */
  datatype Tree = Leaf | Node(folder: Folder, child: Tree, sibling: Tree)

  /** The folders of `list` that name `parent` as their parent, in the order of `list`. */
  function Kids(list: seq<Folder>, parent: Handle): seq<Folder> {
    if list == [] then []
    else if list[0].parent_id == parent then [list[0]] + Kids(list[1..], parent)
    else Kids(list[1..], parent)
  }

  /** `list` without the folders in `gone`. */
  function Without(list: seq<Folder>, gone: set<Folder>): seq<Folder> {
    if list == [] then []
    else if list[0] in gone then Without(list[1..], gone)
    else [list[0]] + Without(list[1..], gone)
  }

  ghost predicate Distinct(list: seq<Folder>) {
    forall i, j :: 0 <= i < j < |list| ==> list[i].folder_id != list[j].folder_id
  }

  function Elems(t: Tree): set<Folder> {
    match t
    case Leaf => {}
    case Node(f, c, s) => {f} + Elems(c) + Elems(s)
  }

  function Preorder(t: Tree): seq<Folder> {
    match t
    case Leaf => []
    case Node(f, c, s) => [f] + Preorder(c) + Preorder(s)
  }

  function Siblings(t: Tree): seq<Folder> {
    match t
    case Leaf => []
    case Node(f, _, s) => [f] + Siblings(s)
  }

  /** Below every node hang exactly the folders of `list` that name it as parent, in the order of `list`. */
  ghost predicate Complete(t: Tree, list: seq<Folder>) {
    match t
    case Leaf => true
    case Node(f, c, s) => Siblings(c) == Kids(list, f.folder_id) && Complete(c, list) && Complete(s, list)
  }

  /** `t` is the hierarchy of `list` below `root`. */
  ghost predicate IsForest(t: Tree, list: seq<Folder>, root: Handle) {
    Siblings(t) == Kids(list, root) && Complete(t, list)
  }

  /** A chain of folders of `list`, each naming the one before it as parent and the first naming `root`. */
  ghost predicate Chain(list: seq<Folder>, path: seq<Folder>, root: Handle) {
    && path != []
    && (forall i :: 0 <= i < |path| ==> path[i] in list)
    && path[0].parent_id == root
    && forall i :: 0 <= i < |path| - 1 ==> path[i + 1].parent_id == path[i].folder_id
  }

  ghost predicate Reaches(list: seq<Folder>, f: Folder, root: Handle) {
    exists path :: Chain(list, path, root) && path[|path| - 1] == f
  }

  lemma {:induction false} KidsIn(list: seq<Folder>, parent: Handle, f: Folder)
    ensures f in Kids(list, parent) <==> f in list && f.parent_id == parent
  {
    if list != [] {
      KidsIn(list[1..], parent, f);
    }
  }

  lemma {:induction false} KidsConcat(a: seq<Folder>, b: seq<Folder>, parent: Handle)
    ensures Kids(a + b, parent) == Kids(a, parent) + Kids(b, parent)
  {
    if a == [] {
      assert a + b == b;
    } else {
      assert (a + b)[1..] == a[1..] + b;
      KidsConcat(a[1..], b, parent);
    }
  }

  lemma SiblingsInElems(t: Tree, f: Folder)
    requires f in Siblings(t)
    ensures f in Elems(t)
  {
  }

  /** Taking away folders that do not name `parent` leaves the kids of `parent` as they were. */
  lemma {:induction false} KidsWithout(list: seq<Folder>, gone: set<Folder>, parent: Handle)
    requires forall f :: f in gone ==> f.parent_id != parent
    ensures Kids(Without(list, gone), parent) == Kids(list, parent)
  {
    if list != [] {
      KidsWithout(list[1..], gone, parent);
      KidsConcat([list[0]], Without(list[1..], gone), parent);
    }
  }

  /** `Complete` against a shorter list is `Complete` against the full one, if no kids went missing. */
  lemma {:induction false} CompleteLift(t: Tree, part: seq<Folder>, list: seq<Folder>)
    requires Complete(t, part)
    requires forall f :: f in Elems(t) ==> Kids(part, f.folder_id) == Kids(list, f.folder_id)
    ensures Complete(t, list)
  {
    match t
    case Leaf =>
    case Node(f, c, s) =>
      CompleteLift(c, part, list);
      CompleteLift(s, part, list);
  }

  /** Every folder of a hierarchy names `root` or another folder of the hierarchy as its parent. */
  lemma {:induction false} ParentsInside(t: Tree, list: seq<Folder>, root: Handle, f: Folder)
    requires Complete(t, list)
    requires forall g :: g in Siblings(t) ==> g.parent_id == root
    requires f in Elems(t)
    ensures f.parent_id == root || exists g :: g in Elems(t) && g.folder_id == f.parent_id
  {
    var Node(g, c, s) := t;
    assert g in Siblings(t);
    if f in Elems(c) {
      forall k | k in Siblings(c) ensures k.parent_id == g.folder_id { KidsIn(list, g.folder_id, k); }
      ParentsInside(c, list, g.folder_id, f);
    } else if f in Elems(s) {
      ParentsInside(s, list, root, f);
    }
  }

  /** The list and the root leave no choice: the hierarchy is unique. */
  lemma {:induction false} ForestUnique(t: Tree, u: Tree, list: seq<Folder>)
    requires Siblings(t) == Siblings(u) && Complete(t, list) && Complete(u, list)
    ensures t == u
  {
    match t
    case Leaf =>
    case Node(f, c, s) =>
      assert Siblings(t)[0] == Siblings(u)[0];
      assert Siblings(s) == Siblings(t)[1..] == Siblings(u)[1..] == Siblings(u.sibling);
      ForestUnique(c, u.child, list);
      ForestUnique(s, u.sibling, list);
  }

  /** A folder naming a folder of the hierarchy as parent is in the hierarchy too. */
  lemma {:induction false} KidInside(t: Tree, list: seq<Folder>, f: Folder, kid: Folder)
    requires Complete(t, list)
    requires f in Elems(t) && kid in list && kid.parent_id == f.folder_id
    ensures kid in Elems(t)
  {
    var Node(g, c, s) := t;
    if f == g {
      KidsIn(list, g.folder_id, kid);
      SiblingsInElems(c, kid);
    } else if f in Elems(c) {
      KidInside(c, list, f, kid);
    } else {
      KidInside(s, list, f, kid);
    }
  }

  lemma {:induction false} ChainInside(t: Tree, list: seq<Folder>, root: Handle, path: seq<Folder>, n: nat)
    requires IsForest(t, list, root)
    requires Chain(list, path, root) && n < |path|
    ensures path[n] in Elems(t)
  {
    if n == 0 {
      KidsIn(list, root, path[0]);
      SiblingsInElems(t, path[0]);
    } else {
      ChainInside(t, list, root, path, n - 1);
      KidInside(t, list, path[n - 1], path[n]);
    }
  }

  lemma ChainNext(list: seq<Folder>, root: Handle, above: seq<Folder>, parent: Handle, f: Folder)
    requires if above == [] then parent == root else Chain(list, above, root) && above[|above| - 1].folder_id == parent
    requires f in list && f.parent_id == parent
    ensures Chain(list, above + [f], root)
  {
  }

  /** Every folder of the part `t` of a hierarchy has a chain, given one for the parent of `t`. */
  lemma {:induction false} ElemsChained(t: Tree, list: seq<Folder>, root: Handle, above: seq<Folder>, parent: Handle,
    f: Folder)
    returns (path: seq<Folder>)
    requires Complete(t, list)
    requires forall g :: g in Siblings(t) ==> g in list && g.parent_id == parent
    requires if above == [] then parent == root else Chain(list, above, root) && above[|above| - 1].folder_id == parent
    requires f in Elems(t)
    ensures Chain(list, path, root) && path[|path| - 1] == f
  {
    hide Chain;
    var Node(g, c, s) := t;
    assert g in Siblings(t);
    ChainNext(list, root, above, parent, g);
    if f == g {
      path := above + [g];
    } else if f in Elems(c) {
      forall k | k in Siblings(c) ensures k in list && k.parent_id == g.folder_id { KidsIn(list, g.folder_id, k); }
      path := ElemsChained(c, list, root, above + [g], g.folder_id, f);
    } else {
      path := ElemsChained(s, list, root, above, parent, f);
    }
  }

  /** The hierarchy holds exactly the folders whose chain of parents reaches the root. */
  lemma ElemsAreReachable(t: Tree, list: seq<Folder>, root: Handle, f: Folder)
    requires IsForest(t, list, root)
    ensures f in Elems(t) <==> Reaches(list, f, root)
  {
    if f in Elems(t) {
      forall g | g in Siblings(t) ensures g in list && g.parent_id == root { KidsIn(list, root, g); }
      var path := ElemsChained(t, list, root, [], root, f);
    }
    if Reaches(list, f, root) {
      var path :| Chain(list, path, root) && path[|path| - 1] == f;
      ChainInside(t, list, root, path, |path| - 1);
    }
  }

  lemma TopReached(list: seq<Folder>, f: Folder, root: Handle)
    requires f in list && f.parent_id == root
    ensures Reaches(list, f, root)
  {
    var path := [f];
    assert Chain(list, path, root) && path[|path| - 1] == f;
  }

  lemma KidReached(list: seq<Folder>, f: Folder, kid: Folder, root: Handle)
    requires Reaches(list, f, root) && kid in list && kid.parent_id == f.folder_id
    ensures Reaches(list, kid, root)
  {
    var path :| Chain(list, path, root) && path[|path| - 1] == f;
    var longer := path + [kid];
    assert Chain(list, longer, root) && longer[|longer| - 1] == kid;
  }

  lemma {:induction false} PreorderElems(t: Tree, f: Folder)
    ensures f in Preorder(t) <==> f in Elems(t)
  {
    match t
    case Leaf =>
    case Node(_, c, s) =>
      PreorderElems(c, f);
      PreorderElems(s, f);
  }

  /** The search of the hierarchy by id: the folder itself, then its siblings, then its children. */
  function FindFolder(t: Tree, id: Handle): (r: Option<Folder>)
    ensures r.Some? ==> r.value in Elems(t) && r.value.folder_id == id
  {
    match t
    case Leaf => None
    case Node(f, c, s) =>
      if f.folder_id == id then Some(f)
      else
        var r := FindFolder(s, id);
        if r.Some? then r else FindFolder(c, id)
  }

  /** No folder with the id is missed; ids being distinct, the one found is the one asked for. */
  lemma {:induction false} FindFolderExact(t: Tree, id: Handle, f: Folder)
    requires Distinct(Preorder(t))
    ensures FindFolder(t, id) == Some(f) <==> f in Elems(t) && f.folder_id == id
  {
    if f in Elems(t) && f.folder_id == id {
      FindFolderComplete(t, id, f);
      var r := FindFolder(t, id);
      PreorderElems(t, f);
      PreorderElems(t, r.value);
      SameId(Preorder(t), f, r.value);
    }
  }

  lemma {:induction false} FindFolderComplete(t: Tree, id: Handle, f: Folder)
    requires f in Elems(t) && f.folder_id == id
    ensures FindFolder(t, id).Some?
  {
    var Node(g, c, s) := t;
    if g.folder_id != id {
      if f in Elems(s) {
        FindFolderComplete(s, id, f);
      } else {
        FindFolderComplete(c, id, f);
      }
    }
  }

  lemma SameId(list: seq<Folder>, f: Folder, g: Folder)
    requires Distinct(list) && f in list && g in list && f.folder_id == g.folder_id
    ensures f == g
  {
    var i :| 0 <= i < |list| && list[i] == f;
    var j :| 0 <= j < |list| && list[j] == g;
    assert !(i < j) && !(j < i);
  }
}
