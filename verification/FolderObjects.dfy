/**
 From the objects of the cache to the folders of a storage, and what the finished hierarchy says
 about the objects themselves.
 */
module FolderObjects {
  import opened Text
  import opened FolderForest

  const PTP_OFC_ASSOCIATION := 0x3001
  const PTP_GOH_ALL_STORAGE: Handle := 0xffff_ffff
  const ROOT: Handle := 0x0000_0000
  const BROKEN_ROOT: Handle := 0xffff_ffff

  /** What the object cache knows about one object. */
  datatype PTPObject = PTPObject(oid: Handle, format: int, storage_id: Handle, parent: Handle, filename: Text)

  predicate IsListed(ob: PTPObject, storage: Handle) {
    ob.format == PTP_OFC_ASSOCIATION && (storage == PTP_GOH_ALL_STORAGE || storage == ob.storage_id)
  }

  function FolderOf(ob: PTPObject): Folder {
    Folder(ob.oid, ob.parent, ob.storage_id, ob.filename)
  }

  /** The folders of the requested storage, in handle order. */
  function Listed(objects: seq<PTPObject>, storage: Handle): seq<Folder> {
    if objects == [] then []
    else
      var ob := objects[|objects| - 1];
      Listed(objects[..|objects| - 1], storage) + if IsListed(ob, storage) then [FolderOf(ob)] else []
  }

  /** The root the hierarchy hangs from: some devices wrongly use the second one. */
  function RootOf(list: seq<Folder>): Handle {
    if Kids(list, ROOT) != [] then ROOT else BROKEN_ROOT
  }

  // ----- the same, in the fields of the objects

  /** An association of the storage asked for, or of any storage if all were. */
  ghost predicate Counts(ob: PTPObject, storage: Handle) {
    ob.format == 0x3001 && (storage == 0xffff_ffff || ob.storage_id == storage)
  }

  ghost predicate Same(f: Folder, ob: PTPObject) {
    f.folder_id == ob.oid && f.parent_id == ob.parent && f.storage_id == ob.storage_id && f.name == ob.filename
  }

  /** `list` has the objects at the positions `at`, which are all that count, in their order. */
  ghost predicate Selects(list: seq<Folder>, objects: seq<PTPObject>, storage: Handle, at: seq<nat>) {
    && |at| == |list|
    && (forall i :: 0 <= i < |at| ==> at[i] < |objects| && Counts(objects[at[i]], storage))
    && (forall i :: 0 <= i < |at| ==> Same(list[i], objects[at[i]]))
    && (forall i, j :: 0 <= i < j < |at| ==> at[i] < at[j])
    && forall k: nat :: k < |objects| && Counts(objects[k], storage) ==> k in at
  }

  lemma {:induction false} ListedSelects(objects: seq<PTPObject>, storage: Handle) returns (at: seq<nat>)
    ensures Selects(Listed(objects, storage), objects, storage, at)
  {
    if objects == [] {
      at := [];
    } else {
      var n := |objects| - 1;
      at := ListedSelects(objects[..n], storage);
      SelectsMore(Listed(objects[..n], storage), objects, storage, at);
      if Counts(objects[n], storage) {
        at := at + [n];
      }
    }
  }

  lemma SelectsMore(list: seq<Folder>, objects: seq<PTPObject>, storage: Handle, at: seq<nat>)
    requires objects != [] && Selects(list, objects[..|objects| - 1], storage, at)
    ensures var ob := objects[|objects| - 1];
      if Counts(ob, storage) then
        forall f :: Same(f, ob) ==> Selects(list + [f], objects, storage, at + [|objects| - 1])
      else Selects(list, objects, storage, at)
  {
    var n := |objects| - 1;
    var init, ob := objects[..n], objects[n];
    assert forall i :: 0 <= i < |at| ==> init[at[i]] == objects[at[i]];
    assert forall k: nat :: k < n ==> init[k] == objects[k];
    if Counts(ob, storage) {
      forall f | Same(f, ob) ensures Selects(list + [f], objects, storage, at + [n]) {
        var more := at + [n];
        assert forall k: nat :: k in at ==> k in more;
        assert more[|at|] == n;
      }
    }
  }

  /** Objects that count, each the parent of the next, the first of them at the top. */
  ghost predicate Line(objects: seq<PTPObject>, storage: Handle, line: seq<PTPObject>) {
    && line != []
    && (forall i :: 0 <= i < |line| ==> line[i] in objects && Counts(line[i], storage))
    && line[0].parent == (
         if exists ob :: ob in objects && Counts(ob, storage) && ob.parent == 0 then 0 else 0xffff_ffff)
    && forall i :: 0 <= i < |line| - 1 ==> line[i + 1].parent == line[i].oid
  }

  ghost predicate Hangs(objects: seq<PTPObject>, storage: Handle, ob: PTPObject) {
    exists line :: Line(objects, storage, line) && line[|line| - 1] == ob
  }

  /** The object comes to stand in the list as its folder, and nothing else does. */
  lemma InListed(objects: seq<PTPObject>, storage: Handle, f: Folder)
    ensures f in Listed(objects, storage) <==> exists ob :: ob in objects && Counts(ob, storage) && Same(f, ob)
  {
    var list := Listed(objects, storage);
    var at := ListedSelects(objects, storage);
    if f in list {
      var i :| 0 <= i < |list| && list[i] == f;
      assert objects[at[i]] in objects;
    }
    if ob :| ob in objects && Counts(ob, storage) && Same(f, ob) {
      var k :| 0 <= k < |objects| && objects[k] == ob;
      var i :| 0 <= i < |at| && at[i] == k;
      assert Same(list[i], ob);
    }
  }

  lemma RootWritten(objects: seq<PTPObject>, storage: Handle)
    ensures RootOf(Listed(objects, storage)) ==
      if exists ob :: ob in objects && Counts(ob, storage) && ob.parent == 0 then 0 else 0xffff_ffff
  {
    var list := Listed(objects, storage);
    if ob :| ob in objects && Counts(ob, storage) && ob.parent == 0 {
      var f := Folder(ob.oid, ob.parent, ob.storage_id, ob.filename);
      InListed(objects, storage, f);
      KidsIn(list, 0, f);
    }
    if Kids(list, 0) != [] {
      var f := Kids(list, 0)[0];
      KidsIn(list, 0, f);
      InListed(objects, storage, f);
    }
  }

  lemma {:induction false} ChainToLine(objects: seq<PTPObject>, storage: Handle, path: seq<Folder>)
    returns (line: seq<PTPObject>)
    requires forall i :: 0 <= i < |path| ==> path[i] in Listed(objects, storage)
    ensures |line| == |path|
    ensures forall i :: 0 <= i < |line| ==> line[i] in objects && Counts(line[i], storage) && Same(path[i], line[i])
  {
    line := [];
    if path != [] {
      var n := |path| - 1;
      line := ChainToLine(objects, storage, path[..n]);
      InListed(objects, storage, path[n]);
      var ob :| ob in objects && Counts(ob, storage) && Same(path[n], ob);
      line := line + [ob];
    }
  }

  lemma {:induction false} LineToChain(objects: seq<PTPObject>, storage: Handle, line: seq<PTPObject>)
    returns (path: seq<Folder>)
    requires forall i :: 0 <= i < |line| ==> line[i] in objects && Counts(line[i], storage)
    ensures |line| == |path|
    ensures forall i :: 0 <= i < |path| ==> path[i] in Listed(objects, storage) && Same(path[i], line[i])
  {
    path := [];
    if line != [] {
      var n := |line| - 1;
      path := LineToChain(objects, storage, line[..n]);
      var ob := line[n];
      var f := Folder(ob.oid, ob.parent, ob.storage_id, ob.filename);
      InListed(objects, storage, f);
      path := path + [f];
    }
  }

  lemma ReachedHangs(objects: seq<PTPObject>, storage: Handle, f: Folder)
    returns (ob: PTPObject)
    requires Reaches(Listed(objects, storage), f, RootOf(Listed(objects, storage)))
    ensures Hangs(objects, storage, ob) && Same(f, ob)
  {
    hide Listed, RootOf, Counts;
    var list, root := Listed(objects, storage), RootOf(Listed(objects, storage));
    RootWritten(objects, storage);
    var path :| Chain(list, path, root) && path[|path| - 1] == f;
    var line := ChainToLine(objects, storage, path);
    ob := line[|line| - 1];
    assert Line(objects, storage, line);
  }

  lemma HangingReached(objects: seq<PTPObject>, storage: Handle, f: Folder, ob: PTPObject)
    requires Hangs(objects, storage, ob) && Same(f, ob)
    ensures Reaches(Listed(objects, storage), f, RootOf(Listed(objects, storage)))
  {
    hide Listed, RootOf, Counts;
    var list, root := Listed(objects, storage), RootOf(Listed(objects, storage));
    RootWritten(objects, storage);
    var line :| Line(objects, storage, line) && line[|line| - 1] == ob;
    var path := LineToChain(objects, storage, line);
    assert Chain(list, path, root) && path[|path| - 1] == f;
  }

  /** The hierarchy holds a folder exactly if it is that of an object that hangs from the top by its parents. */
  lemma HierarchyOfObjects(objects: seq<PTPObject>, storage: Handle, t: Tree, f: Folder)
    requires IsForest(t, Listed(objects, storage), RootOf(Listed(objects, storage)))
    ensures f in Elems(t) <==> exists ob :: Hangs(objects, storage, ob) && Same(f, ob)
  {
    hide IsForest, Reaches, Hangs, Same, RootOf;
    ElemsAreReachable(t, Listed(objects, storage), RootOf(Listed(objects, storage)), f);
    if f in Elems(t) {
      var ob := ReachedHangs(objects, storage, f);
    }
    if ob :| Hangs(objects, storage, ob) && Same(f, ob) {
      HangingReached(objects, storage, f, ob);
    }
  }

  /** The hierarchy as it is walked through, folder before subfolders, has `a` before `b`. */
  ghost predicate Before(list: seq<Folder>, a: Folder, b: Folder) {
    exists i, j :: 0 <= i < j < |list| && list[i] == a && list[j] == b
  }

  lemma BeforeWithin(a: seq<Folder>, list: seq<Folder>, b: seq<Folder>, f: Folder, g: Folder)
    requires Before(list, f, g)
    ensures Before(a + list + b, f, g)
  {
    var i, j :| 0 <= i < j < |list| && list[i] == f && list[j] == g;
    var all := a + list + b;
    assert all[|a| + i] == f && all[|a| + j] == g;
  }

  lemma {:induction false} KidsInOrder(list: seq<Folder>, f: Folder, g: Folder)
    requires Before(list, f, g) && f.parent_id == g.parent_id
    ensures Before(Kids(list, f.parent_id), f, g)
  {
    var kids := Kids(list, f.parent_id);
    var i, j :| 0 <= i < j < |list| && list[i] == f && list[j] == g;
    if i == 0 {
      assert g == list[1..][j - 1];
      KidsIn(list[1..], f.parent_id, g);
      var k :| 0 <= k < |Kids(list[1..], f.parent_id)| && Kids(list[1..], f.parent_id)[k] == g;
      assert kids[0] == f && kids[k + 1] == g;
    } else {
      assert list[1..][i - 1] == f && list[1..][j - 1] == g;
      KidsInOrder(list[1..], f, g);
      BeforeWithin(if list[0].parent_id == f.parent_id then [list[0]] else [], Kids(list[1..], f.parent_id), [], f, g);
    }
  }

  lemma {:induction false} SiblingsInOrder(t: Tree, f: Folder, g: Folder)
    requires Before(Siblings(t), f, g)
    ensures Before(Preorder(t), f, g)
  {
    var Node(h, c, s) := t;
    var list, all := Siblings(t), Preorder(t);
    var i, j :| 0 <= i < j < |list| && list[i] == f && list[j] == g;
    if i == 0 {
      assert g == Siblings(s)[j - 1];
      SiblingsInElems(s, g);
      PreorderElems(s, g);
      var k :| 0 <= k < |Preorder(s)| && Preorder(s)[k] == g;
      assert all[0] == f && all[1 + |Preorder(c)| + k] == g;
    } else {
      assert Siblings(s)[i - 1] == f && Siblings(s)[j - 1] == g;
      SiblingsInOrder(s, f, g);
      BeforeWithin([h] + Preorder(c), Preorder(s), [], f, g);
    }
  }

  lemma {:induction false} BelowInOrder(t: Tree, list: seq<Folder>, h: Folder, f: Folder, g: Folder)
    requires Complete(t, list) && h in Elems(t)
    requires Before(list, f, g) && f.parent_id == g.parent_id == h.folder_id
    ensures Before(Preorder(t), f, g)
  {
    hide Before;
    var Node(top, c, s) := t;
    if h == top {
      KidsInOrder(list, f, g);
      SiblingsInOrder(c, f, g);
      BeforeWithin([top], Preorder(c), Preorder(s), f, g);
    } else if h in Elems(c) {
      BelowInOrder(c, list, h, f, g);
      BeforeWithin([top], Preorder(c), Preorder(s), f, g);
    } else {
      BelowInOrder(s, list, h, f, g);
      BeforeWithin([top] + Preorder(c), Preorder(s), [], f, g);
      assert [top] + Preorder(c) + Preorder(s) + [] == Preorder(t);
    }
  }

  /** Folders with the same parent come in the order of the list. */
  lemma ForestInOrder(t: Tree, list: seq<Folder>, root: Handle, f: Folder, g: Folder)
    requires IsForest(t, list, root) && f in Elems(t)
    requires Before(list, f, g) && f.parent_id == g.parent_id
    ensures Before(Preorder(t), f, g)
  {
    hide Before;
    if f.parent_id == root {
      KidsInOrder(list, f, g);
      SiblingsInOrder(t, f, g);
    } else {
      forall k | k in Siblings(t) ensures k.parent_id == root { KidsIn(list, root, k); }
      ParentsInside(t, list, root, f);
      var h :| h in Elems(t) && h.folder_id == f.parent_id;
      BelowInOrder(t, list, h, f, g);
    }
  }

  /** Objects of the same parent that both hang from the top stand in the hierarchy in the order of the cache. */
  lemma ObjectsInOrder(objects: seq<PTPObject>, storage: Handle, t: Tree, i: nat, j: nat)
    returns (f: Folder, g: Folder)
    requires IsForest(t, Listed(objects, storage), RootOf(Listed(objects, storage)))
    requires i < j < |objects| && Hangs(objects, storage, objects[i]) && Counts(objects[j], storage)
    requires objects[i].parent == objects[j].parent
    ensures Same(f, objects[i]) && Same(g, objects[j]) && Before(Preorder(t), f, g)
  {
    hide IsForest, Hangs, RootOf;
    var list := Listed(objects, storage);
    var at := ListedSelects(objects, storage);
    HangingCounts(objects, storage, objects[i]);
    var k :| 0 <= k < |at| && at[k] == i;
    var l :| 0 <= l < |at| && at[l] == j;
    f, g := list[k], list[l];
    HierarchyOfObjects(objects, storage, t, f);
    assert k < l;
    ForestInOrder(t, list, RootOf(list), f, g);
  }

  /** What is left over: the folders of the objects that count and do not hang from the top. */
  ghost predicate OrphansAre(objects: seq<PTPObject>, storage: Handle, orphans: seq<Folder>) {
    forall f: Folder :: f in orphans <==>
      exists ob :: ob in objects && Counts(ob, storage) && !Hangs(objects, storage, ob) && Same(f, ob)
  }

  /** Siblings come in the order of the cache. */
  ghost predicate SiblingsAsCached(objects: seq<PTPObject>, storage: Handle, t: Tree) {
    forall i, j :: 0 <= i < j < |objects| && TogetherBelow(objects, storage, objects[i], objects[j]) ==>
      exists f, g :: Same(f, objects[i]) && Same(g, objects[j]) && Before(Preorder(t), f, g)
  }

  ghost predicate TogetherBelow(objects: seq<PTPObject>, storage: Handle, a: PTPObject, b: PTPObject) {
    a.parent == b.parent && Hangs(objects, storage, a) && Hangs(objects, storage, b)
  }

  lemma HangingCounts(objects: seq<PTPObject>, storage: Handle, ob: PTPObject)
    requires Hangs(objects, storage, ob)
    ensures ob in objects && Counts(ob, storage)
  {
  }

  lemma SameObject(a: PTPObject, b: PTPObject, storage: Handle, f: Folder)
    requires Counts(a, storage) && Counts(b, storage) && Same(f, a) && Same(f, b)
    ensures a == b
  {
  }

  lemma OrphansWritten(objects: seq<PTPObject>, storage: Handle, t: Tree, orphans: seq<Folder>)
    requires IsForest(t, Listed(objects, storage), RootOf(Listed(objects, storage)))
    requires forall f :: f in orphans <==> f in Listed(objects, storage) && f !in Elems(t)
    ensures OrphansAre(objects, storage, orphans)
  {
    hide IsForest, Hangs, Listed, RootOf, Counts, Same;
    forall f: Folder
      ensures f in orphans <==>
        exists ob :: ob in objects && Counts(ob, storage) && !Hangs(objects, storage, ob) && Same(f, ob)
    {
      HierarchyOfObjects(objects, storage, t, f);
      InListed(objects, storage, f);
      forall a, b | Hangs(objects, storage, a) && Same(f, a) && Counts(b, storage) && Same(f, b) ensures a == b {
        HangingCounts(objects, storage, a);
        SameObject(a, b, storage, f);
      }
    }
  }

  lemma SiblingsWritten(objects: seq<PTPObject>, storage: Handle, t: Tree)
    requires IsForest(t, Listed(objects, storage), RootOf(Listed(objects, storage)))
    ensures SiblingsAsCached(objects, storage, t)
  {
    hide IsForest, Listed, RootOf, Same, Before;
    forall i, j | 0 <= i < j < |objects| && TogetherBelow(objects, storage, objects[i], objects[j])
      ensures exists f, g :: Same(f, objects[i]) && Same(g, objects[j]) && Before(Preorder(t), f, g)
    {
      var f, g := ObjectsInOrder(objects, storage, t, i, j);
    }
  }
}
