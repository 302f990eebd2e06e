/** Which lists of folders have a hierarchy at all: those in which no chain of parents comes back to itself. */
module FolderLoops {
  import opened FolderForest
  import opened FolderTrail

  /** Some folder of the chain has the handle of the root, or that of a folder before it. */
  ghost predicate Returns(path: seq<Folder>, root: Handle) {
    exists i :: 0 <= i < |path| &&
      (path[i].folder_id == root || exists j :: 0 <= j < i && path[j].folder_id == path[i].folder_id)
  }

  ghost predicate Loops(list: seq<Folder>, root: Handle) {
    exists path :: Chain(list, path, root) && Returns(path, root)
  }

  function Size(t: Tree): nat {
    match t
    case Leaf => 0
    case Node(_, c, s) => 1 + Size(c) + Size(s)
  }

  lemma {:induction false} HangsBelow(t: Tree, list: seq<Folder>, f: Folder) returns (c: Tree)
    requires Complete(t, list) && f in Siblings(t)
    ensures IsForest(c, list, f.folder_id) && Size(c) < Size(t)
  {
    if t.folder == f {
      c := t.child;
    } else {
      c := HangsBelow(t.sibling, list, f);
    }
  }

  /** Going down a chain leads to a hierarchy that is smaller. */
  lemma {:induction false} GoDown(t: Tree, list: seq<Folder>, root: Handle, path: seq<Folder>) returns (c: Tree)
    requires IsForest(t, list, root) && Chain(list, path, root)
    ensures IsForest(c, list, path[|path| - 1].folder_id) && Size(c) < Size(t)
    decreases |path|
  {
    KidsIn(list, root, path[0]);
    c := HangsBelow(t, list, path[0]);
    if |path| > 1 {
      c := GoDown(c, list, path[0].folder_id, path[1..]);
    }
  }

  /** A hierarchy below a root leaves no room for a smaller one below the same root. */
  lemma NoneSmaller(t: Tree, list: seq<Folder>, root: Handle, path: seq<Folder>)
    requires IsForest(t, list, root) && Chain(list, path, root)
    ensures path[|path| - 1].folder_id != root
  {
    if path[|path| - 1].folder_id == root {
      var c := GoDown(t, list, root, path);
      ForestUnique(t, c, list);
    }
  }

  lemma ForestHasNoLoop(t: Tree, list: seq<Folder>, root: Handle, path: seq<Folder>)
    requires IsForest(t, list, root) && Chain(list, path, root)
    ensures !Returns(path, root)
  {
    forall i | 0 <= i < |path|
      ensures path[i].folder_id != root && forall j :: 0 <= j < i ==> path[j].folder_id != path[i].folder_id
    {
      NoneSmaller(t, list, root, path[..i + 1]);
      forall j | 0 <= j < i ensures path[j].folder_id != path[i].folder_id {
        var c := GoDown(t, list, root, path[..j + 1]);
        NoneSmaller(c, list, path[j].folder_id, path[j + 1..i + 1]);
      }
    }
  }

  lemma {:induction false} NoRepeatsShort(path: seq<Folder>, list: seq<Folder>)
    requires forall i, j :: 0 <= i < j < |path| ==> path[i] != path[j]
    requires forall i :: 0 <= i < |path| ==> path[i] in list
    ensures |path| <= |list|
  {
    if path != [] {
      var last := path[|path| - 1];
      var k :| 0 <= k < |list| && list[k] == last;
      var rest := list[..k] + list[k + 1..];
      forall i | 0 <= i < |path| - 1 ensures path[i] in rest {
        var m :| 0 <= m < |list| && list[m] == path[i];
        assert rest[if m < k then m else m - 1] == path[i];
      }
      NoRepeatsShort(path[..|path| - 1], rest);
    }
  }

  /** Without loops a chain is no longer than the list. */
  lemma ChainShort(list: seq<Folder>, root: Handle, path: seq<Folder>)
    requires Chain(list, path, root) && !Returns(path, root)
    ensures |path| <= |list|
  {
    forall i, j | 0 <= i < j < |path| ensures path[i] != path[j] {
    }
    NoRepeatsShort(path, list);
  }

  /** The folders `kids` below `parent`, which `above` leads to, with all that hangs below them. */
  lemma {:induction false} Grow(list: seq<Folder>, root: Handle, above: seq<Folder>, parent: Handle, kids: seq<Folder>)
    returns (t: Tree)
    requires !Loops(list, root) && LeadsTo(list, root, above, parent) && |above| <= |list|
    requires AllUnder(list, kids, parent)
    ensures Siblings(t) == kids && Complete(t, list)
    decreases |list| - |above|, |kids|
  {
    if kids == [] {
      t := Leaf;
    } else {
      var f := kids[0];
      OneMore(list, root, above, f, parent);
      ChainShort(list, root, above + [f]);
      KidsUnder(list, f.folder_id);
      var c := Grow(list, root, above + [f], f.folder_id, Kids(list, f.folder_id));
      var s := Grow(list, root, above, parent, kids[1..]);
      t := Node(f, c, s);
    }
  }

  /** A list has a hierarchy below a root if and only if no chain of parents from the root comes back to itself. */
  lemma ForestExists(list: seq<Folder>, root: Handle)
    ensures (exists t :: IsForest(t, list, root)) <==> !Loops(list, root)
  {
    if t :| IsForest(t, list, root) {
      forall path | Chain(list, path, root) ensures !Returns(path, root) { ForestHasNoLoop(t, list, root, path); }
    }
    if !Loops(list, root) {
      KidsUnder(list, root);
      var t := Grow(list, root, [], root, Kids(list, root));
      assert IsForest(t, list, root);
    }
  }

  /** With distinct handles the only way back is a folder within reach that has the root's own handle. */
  lemma DistinctLoops(list: seq<Folder>, root: Handle)
    requires Distinct(list)
    ensures Loops(list, root) <==> exists f :: Reaches(list, f, root) && f.folder_id == root
  {
    if f :| Reaches(list, f, root) && f.folder_id == root {
      var path :| Chain(list, path, root) && path[|path| - 1] == f;
      assert Returns(path, root);
    }
    if Loops(list, root) {
      var path: seq<Folder> :| Chain(list, path, root) && Returns(path, root);
      LoopReachesRoot(list, root, path);
    }
  }

  lemma LoopReachesRoot(list: seq<Folder>, root: Handle, path: seq<Folder>)
    requires Distinct(list) && Chain(list, path, root) && Returns(path, root)
    ensures exists f :: Reaches(list, f, root) && f.folder_id == root
  {
    hide Reaches, Distinct;
    var i :| 0 <= i < |path| &&
      (path[i].folder_id == root || exists j :: 0 <= j < i && path[j].folder_id == path[i].folder_id);
    if path[i].folder_id == root {
      OnChain(list, root, path, i);
    } else {
      var j :| 0 <= j < i && path[j].folder_id == path[i].folder_id;
      BackToRoot(list, root, path, j, i);
    }
  }

  lemma OnChain(list: seq<Folder>, root: Handle, path: seq<Folder>, i: nat)
    requires Chain(list, path, root) && i < |path|
    ensures Reaches(list, path[i], root)
  {
    var part := path[..i + 1];
    assert Chain(list, part, root) && part[|part| - 1] == path[i];
  }

  /** Two equal handles on a chain are one folder, and so are their parents, up to the root. */
  lemma {:induction false} BackToRoot(list: seq<Folder>, root: Handle, path: seq<Folder>, j: nat, i: nat)
    requires Distinct(list) && Chain(list, path, root)
    requires j < i < |path| && path[j].folder_id == path[i].folder_id
    ensures exists f :: Reaches(list, f, root) && f.folder_id == root
  {
    SameId(list, path[j], path[i]);
    assert path[i - 1 + 1].parent_id == path[i - 1].folder_id;
    if j > 0 {
      assert path[j - 1 + 1].parent_id == path[j - 1].folder_id;
      BackToRoot(list, root, path, j - 1, i - 1);
    } else {
      OnChain(list, root, path, i - 1);
    }
  }

  /** Repeated handles alone do no harm, but a folder that repeats its own parent's handle has no hierarchy. */
  lemma RepeatedHandle(a: Folder, b: Folder)
    requires a.parent_id == 0 && a.folder_id == b.folder_id != 0
    ensures b.parent_id == 0 ==> IsForest(Node(a, Leaf, Node(b, Leaf, Leaf)), [a, b], 0)
    ensures b.parent_id == b.folder_id ==> !exists t :: IsForest(t, [a, b], 0)
  {
    var list := [a, b];
    assert list[1..] == [b] && [b][1..] == [];
    if b.parent_id == 0 {
      assert Kids([b], 0) == [b] + Kids([], 0) == [b];
      assert Kids(list, 0) == [a] + Kids([b], 0);
      assert Kids([b], a.folder_id) == Kids([], a.folder_id) == [];
      assert Kids(list, a.folder_id) == Kids([b], a.folder_id);
      var second := Node(b, Leaf, Leaf);
      assert Siblings(second) == [b] + Siblings(Leaf) == [b];
      assert Siblings(Node(a, Leaf, second)) == [a] + Siblings(second);
    }
    if b.parent_id == b.folder_id {
      assert Chain(list, list, 0);
      assert list[0].folder_id == list[1].folder_id;
      assert Returns(list, 0);
      ForestExists(list, 0);
    }
  }
}
