/** The way from the root of a hierarchy down to one of its folders. */
module FolderTrail {
  import opened FolderForest
  import opened Wrappers

  /** The folders above and including the one that `FindFolder` finds. */
  function Trail(t: Tree, id: Handle): (r: Option<seq<Folder>>)
    ensures r.Some? ==> r.value != [] && r.value[|r.value| - 1].folder_id == id
  {
    match t
    case Leaf => None
    case Node(f, c, s) =>
      if f.folder_id == id then Some([f])
      else
        var r := Trail(s, id);
        if r.Some? then r
        else
          var q := Trail(c, id);
          if q.Some? then Some([f] + q.value) else None
  }

  lemma {:induction false} TrailFinds(t: Tree, id: Handle)
    ensures FindFolder(t, id).Some? <==> Trail(t, id).Some?
    ensures Trail(t, id).Some? ==> var p := Trail(t, id).value; FindFolder(t, id) == Some(p[|p| - 1])
  {
    match t
    case Leaf =>
    case Node(f, c, s) =>
      TrailFinds(c, id);
      TrailFinds(s, id);
  }

  lemma {:induction false} TrailInside(t: Tree, id: Handle, i: nat)
    requires Trail(t, id).Some? && i < |Trail(t, id).value|
    ensures Trail(t, id).value[i] in Elems(t)
  {
    var Node(f, c, s) := t;
    if f.folder_id != id {
      if Trail(s, id).Some? {
        TrailInside(s, id, i);
      } else if i > 0 {
        TrailInside(c, id, i - 1);
      }
    }
  }

  /** `above` is the way from the root to the folders that name `parent`. */
  ghost predicate LeadsTo(list: seq<Folder>, root: Handle, above: seq<Folder>, parent: Handle) {
    if above == [] then parent == root else Chain(list, above, root) && above[|above| - 1].folder_id == parent
  }

  ghost predicate AllUnder(list: seq<Folder>, level: seq<Folder>, parent: Handle) {
    forall g :: g in level ==> g in list && g.parent_id == parent
  }

  lemma KidsUnder(list: seq<Folder>, parent: Handle)
    ensures AllUnder(list, Kids(list, parent), parent)
  {
    forall k | k in Kids(list, parent) ensures k in list && k.parent_id == parent { KidsIn(list, parent, k); }
  }

  lemma OneMore(list: seq<Folder>, root: Handle, above: seq<Folder>, f: Folder, parent: Handle)
    requires f in list && f.parent_id == parent && LeadsTo(list, root, above, parent)
    ensures Chain(list, above + [f], root) && LeadsTo(list, root, above + [f], f.folder_id)
  {
  }

  lemma Appended<T>(a: seq<T>, x: T, b: seq<T>)
    ensures a + [x] + b == a + ([x] + b)
  {
  }

  lemma {:induction false} TrailChained(t: Tree, list: seq<Folder>, root: Handle, above: seq<Folder>, parent: Handle,
    id: Handle)
    requires Complete(t, list) && Trail(t, id).Some?
    requires AllUnder(list, Siblings(t), parent) && LeadsTo(list, root, above, parent)
    ensures Chain(list, above + Trail(t, id).value, root)
  {
    hide Chain, LeadsTo;
    var Node(f, c, s) := t;
    assert f in Siblings(t);
    OneMore(list, root, above, f, parent);
    if f.folder_id != id {
      if Trail(s, id).Some? {
        assert Siblings(s) == Siblings(t)[1..];
        TrailChained(s, list, root, above, parent, id);
      } else {
        KidsUnder(list, f.folder_id);
        TrailChained(c, list, root, above + [f], f.folder_id, id);
        Appended(above, f, Trail(c, id).value);
      }
    }
  }

  /** Each folder of a trail names the one before it as its parent, and the first names the root. */
  lemma TrailIsChain(t: Tree, list: seq<Folder>, root: Handle, id: Handle)
    requires IsForest(t, list, root) && Trail(t, id).Some?
    ensures Chain(list, Trail(t, id).value, root)
  {
    KidsUnder(list, root);
    TrailChained(t, list, root, [], root, id);
    assert [] + Trail(t, id).value == Trail(t, id).value;
  }

  /** Every folder of a trail is the one found under its own id. */
  lemma FindOnTrail(t: Tree, id: Handle, i: nat)
    requires Distinct(Preorder(t)) && Trail(t, id).Some? && i < |Trail(t, id).value|
    ensures FindFolder(t, Trail(t, id).value[i].folder_id) == Some(Trail(t, id).value[i])
  {
    var f := Trail(t, id).value[i];
    TrailInside(t, id, i);
    FindFolderExact(t, f.folder_id, f);
  }
}
