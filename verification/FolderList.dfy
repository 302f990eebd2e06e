/**
 Building the folder hierarchy in place. All folders are first put on a circular doubly linked
 list through a stack-allocated head, where `sibling` says next and `child` says previous; the
 hierarchy is then cut out of that list, reusing the same two fields as tree links.
 */
module FolderList {
  import opened FolderForest
  import opened FolderLoops
  import opened FolderObjects

  class FolderNode {
    const folder: Folder
    var sibling: FolderNode?
    var child: FolderNode?

    constructor (folder: Folder)
      ensures this.folder == folder && sibling == null && child == null
    {
      this.folder := folder;
      sibling, child := null, null;
    }
  }

  /** The list read backwards: front insertion makes this the order of the object handles. */
  ghost function HandleOrder(ns: seq<FolderNode>): seq<Folder> {
    if ns == [] then [] else HandleOrder(ns[1..]) + [ns[0].folder]
  }

  /** Position `i` on the circle: the head at both ends, the nodes between. */
  ghost function Cyc(head: FolderNode, ns: seq<FolderNode>, i: nat): FolderNode
    requires i <= |ns| + 1
  {
    if i == 0 || i == |ns| + 1 then head else ns[i - 1]
  }

  ghost function Circle(head: FolderNode, ns: seq<FolderNode>): set<FolderNode> {
    {head} + set n | n in ns
  }

  ghost predicate Ring(head: FolderNode, ns: seq<FolderNode>)
    reads head, ns
  {
    && head !in ns
    && (forall i, j :: 0 <= i < j < |ns| ==> ns[i] != ns[j])
    && (forall i :: 0 <= i <= |ns| ==> Cyc(head, ns, i).sibling == Cyc(head, ns, i + 1))
    && (forall i :: 0 <= i <= |ns| ==> Cyc(head, ns, i + 1).child == Cyc(head, ns, i))
  }

  /** From `h` on, the nodes of `region` are linked as the tree `t`. */
  ghost predicate Linked(h: FolderNode?, t: Tree, region: set<FolderNode>)
    reads region
    decreases t
  {
    match t
    case Leaf => h == null
    case Node(f, c, s) =>
      h != null && h in region && h.folder == f && Linked(h.child, c, region) && Linked(h.sibling, s, region)
  }

  ghost function Keep(ns: seq<FolderNode>, gone: set<Folder>): seq<FolderNode> {
    if ns == [] then []
    else if ns[0].folder in gone then Keep(ns[1..], gone)
    else [ns[0]] + Keep(ns[1..], gone)
  }

  ghost function Taken(ns: seq<FolderNode>, gone: set<Folder>): set<FolderNode> {
    set n | n in ns && n.folder in gone
  }

  lemma {:induction false} HandleOrderConcat(a: seq<FolderNode>, b: seq<FolderNode>)
    ensures HandleOrder(a + b) == HandleOrder(b) + HandleOrder(a)
  {
    if a == [] {
      assert a + b == b;
    } else {
      assert (a + b)[1..] == a[1..] + b;
      HandleOrderConcat(a[1..], b);
    }
  }

  lemma {:induction false} HandleOrderIn(ns: seq<FolderNode>, n: FolderNode)
    requires n in ns
    ensures n.folder in HandleOrder(ns)
  {
    if n != ns[0] {
      HandleOrderIn(ns[1..], n);
    }
  }

  lemma {:induction false} HandleOrderFrom(ns: seq<FolderNode>, f: Folder) returns (n: FolderNode)
    requires f in HandleOrder(ns)
    ensures n in ns && n.folder == f
  {
    if f == ns[0].folder {
      n := ns[0];
    } else {
      n := HandleOrderFrom(ns[1..], f);
    }
  }

  lemma {:induction false} KeepConcat(a: seq<FolderNode>, b: seq<FolderNode>, gone: set<Folder>)
    ensures Keep(a + b, gone) == Keep(a, gone) + Keep(b, gone)
  {
    if a == [] {
      assert a + b == b;
    } else {
      assert (a + b)[1..] == a[1..] + b;
      KeepConcat(a[1..], b, gone);
    }
  }

  lemma {:induction false} KeepTwice(ns: seq<FolderNode>, g1: set<Folder>, g2: set<Folder>)
    ensures Keep(Keep(ns, g1), g2) == Keep(ns, g1 + g2)
  {
    if ns != [] {
      KeepTwice(ns[1..], g1, g2);
    }
  }

  lemma {:induction false} KeepAll(ns: seq<FolderNode>, gone: set<Folder>)
    requires forall n :: n in ns ==> n.folder !in gone
    ensures Keep(ns, gone) == ns
  {
    if ns != [] {
      KeepAll(ns[1..], gone);
    }
  }

  lemma {:induction false} KeepIn(ns: seq<FolderNode>, gone: set<Folder>, n: FolderNode)
    ensures n in Keep(ns, gone) <==> n in ns && n.folder !in gone
  {
    if ns != [] {
      KeepIn(ns[1..], gone, n);
    }
  }

  /** Keeping nodes of the list is `Without` on the folders. */
  lemma {:induction false} HandleOrderKeep(ns: seq<FolderNode>, gone: set<Folder>)
    ensures HandleOrder(Keep(ns, gone)) == Without(HandleOrder(ns), gone)
  {
    if ns != [] {
      HandleOrderKeep(ns[1..], gone);
      WithoutConcat(HandleOrder(ns[1..]), [ns[0].folder], gone);
    }
  }

  lemma {:induction false} WithoutConcat(a: seq<Folder>, b: seq<Folder>, gone: set<Folder>)
    ensures Without(a + b, gone) == Without(a, gone) + Without(b, gone)
  {
    if a == [] {
      assert a + b == b;
    } else {
      assert (a + b)[1..] == a[1..] + b;
      WithoutConcat(a[1..], b, gone);
    }
  }

  lemma {:induction false} WithoutIn(list: seq<Folder>, gone: set<Folder>, f: Folder)
    ensures f in Without(list, gone) <==> f in list && f !in gone
  {
    if list != [] {
      WithoutIn(list[1..], gone, f);
    }
  }

  lemma {:induction false} WithoutDistinct(list: seq<Folder>, gone: set<Folder>)
    requires Distinct(list)
    ensures Distinct(Without(list, gone))
  {
    if list != [] {
      WithoutDistinct(list[1..], gone);
      forall f | f in Without(list[1..], gone) ensures f.folder_id != list[0].folder_id {
        WithoutIn(list[1..], gone, f);
      }
      var rest := Without(list[1..], gone);
      assert forall i :: 0 <= i < |rest| ==> rest[i] in rest;
      assert Distinct(rest);
    }
  }

  lemma {:induction false} LinkedGrow(h: FolderNode?, t: Tree, r: set<FolderNode>, r': set<FolderNode>)
    requires Linked(h, t, r) && r <= r'
    ensures Linked(h, t, r')
    decreases t
  {
    match t
    case Leaf =>
    case Node(_, c, s) =>
      LinkedGrow(h.child, c, r, r');
      LinkedGrow(h.sibling, s, r, r');
  }

  /** Takes `curr` off the circle. Its own links keep pointing into the list. */
  method Unlink(curr: FolderNode, ghost head: FolderNode, ghost a: seq<FolderNode>, ghost b: seq<FolderNode>)
    requires Ring(head, a + [curr] + b)
    modifies Circle(head, a + b)
    ensures Ring(head, a + b)
  {
    ghost var ns := a + [curr] + b;
    assert Cyc(head, ns, |a| + 1) == curr == ns[|a|];
    assert Cyc(head, ns, |a|).sibling == curr && curr.child == Cyc(head, ns, |a|);
    assert curr.sibling == Cyc(head, ns, |a| + 2);
    var prev, next := curr.child, curr.sibling;
    prev.sibling := next;
    next.child := prev;
    ghost var out := a + b;
    assert forall i :: 0 <= i < |out| ==> out[i] == ns[if i < |a| then i else i + 1];
    assert forall i :: 0 <= i <= |a| ==> Cyc(head, out, i) == Cyc(head, ns, i);
    assert forall i :: |a| < i <= |out| + 1 ==> Cyc(head, out, i) == Cyc(head, ns, i + 1);
  }

  /**
   What the recursion may rely on: ids on the list are distinct, and every folder whose id lies on
   the recursion path (the ids being expanded, `parent` the innermost) is itself protected, that
   is, its own parent lies on the path strictly above. Protected folders are never unlinked, so
   the iterator that each outer call holds stays on the list.
   */
  ghost predicate Safe(ns: seq<FolderNode>, path: set<Handle>, parent: Handle) {
    && Distinct(HandleOrder(ns))
    && parent !in path
    && forall n :: n in ns && n.folder.folder_id in path + {parent} ==> n.folder.parent_id in path
  }

  /** The folders that a call may still extract: the measure of the recursion. */
  ghost function Unprotected(ns: seq<FolderNode>, path: set<Handle>): set<FolderNode> {
    set n | n in ns && n.folder.parent_id !in path
  }

  /** What a call takes off the list: distinct unprotected folders of the list, forming the forest below `parent`. */
  ghost predicate Extracted(t: Tree, ns: seq<FolderNode>, path: set<Handle>) {
    && Complete(t, HandleOrder(ns))
    && Distinct(Preorder(t))
    && forall f :: f in Elems(t) ==> f in HandleOrder(ns) && f.parent_id !in path
  }

  lemma SafeBelow(ns: seq<FolderNode>, path: set<Handle>, parent: Handle, x: FolderNode)
    requires Safe(ns, path, parent) && x in ns && x.folder.parent_id == parent
    ensures Safe(ns, path + {parent}, x.folder.folder_id)
  {
    forall n | n in ns && n.folder.folder_id in path + {parent} + {x.folder.folder_id}
      ensures n.folder.parent_id in path + {parent}
    {
      if n.folder.folder_id == x.folder.folder_id {
        HandleOrderIn(ns, n);
        HandleOrderIn(ns, x);
        SameId(HandleOrder(ns), n.folder, x.folder);
      }
    }
  }

  lemma SafeKeep(ns: seq<FolderNode>, gone: set<Folder>, path: set<Handle>, parent: Handle)
    requires Safe(ns, path, parent)
    ensures Safe(Keep(ns, gone), path, parent)
  {
    HandleOrderKeep(ns, gone);
    WithoutDistinct(HandleOrder(ns), gone);
    forall n | n in Keep(ns, gone) ensures n in ns { KeepIn(ns, gone, n); }
  }

  /** The loop of GetSubfolders: `a` is passed over, `b` is still to come, `t` is extracted so far. */
  ghost predicate Midway(t: Tree, ns: seq<FolderNode>, a: seq<FolderNode>, b: seq<FolderNode>, path: set<Handle>,
    parent: Handle) {
    && a + b == Keep(ns, Elems(t))
    && Extracted(t, ns, path)
    && (forall n :: n in a ==> n.folder.parent_id != parent)
    && Kids(HandleOrder(ns), parent) == Kids(HandleOrder(b), parent) + Siblings(t)
  }

  lemma MidwaySkip(t: Tree, ns: seq<FolderNode>, a: seq<FolderNode>, b: seq<FolderNode>, path: set<Handle>,
    parent: Handle)
    requires Midway(t, ns, a, b, path, parent)
    requires b != [] && b[0].folder.parent_id != parent
    ensures Midway(t, ns, a + [b[0]], b[1..], path, parent)
  {
    assert a + [b[0]] + b[1..] == a + b;
    KidsConcat(HandleOrder(b[1..]), [b[0].folder], parent);
  }

  /** Against the shortened list or the full one, the folders of the new subtree have the same kids. */
  lemma SameKids(t: Tree, ns: seq<FolderNode>, path: set<Handle>, parent: Handle, f: Folder)
    requires Safe(ns, path, parent) && Extracted(t, ns, path)
    requires forall g :: g in Siblings(t) ==> g.parent_id == parent
    requires f in HandleOrder(ns) && f !in Elems(t) && f.folder_id != parent
    ensures Kids(HandleOrder(Keep(ns, Elems(t))), f.folder_id) == Kids(HandleOrder(ns), f.folder_id)
  {
    forall g | g in Elems(t) ensures g.parent_id != f.folder_id {
      ParentsInside(t, HandleOrder(ns), parent, g);
      if g.parent_id == f.folder_id {
        var h :| h in Elems(t) && h.folder_id == g.parent_id;
        SameId(HandleOrder(ns), h, f);
      }
    }
    HandleOrderKeep(ns, Elems(t));
    KidsWithout(HandleOrder(ns), Elems(t), f.folder_id);
  }

  lemma NotParent(ns: seq<FolderNode>, path: set<Handle>, parent: Handle, f: Folder)
    requires Safe(ns, path, parent) && f in HandleOrder(ns) && f.parent_id !in path
    ensures f.folder_id != parent
  {
    var n := HandleOrderFrom(ns, f);
  }

  lemma RestIn(t: Tree, ns: seq<FolderNode>, rest: seq<FolderNode>, f: Folder)
    requires rest == Keep(ns, Elems(t))
    ensures f in HandleOrder(rest) <==> f in HandleOrder(ns) && f !in Elems(t)
  {
    HandleOrderKeep(ns, Elems(t));
    WithoutIn(HandleOrder(ns), Elems(t), f);
  }

  /** The subtree of `x` was extracted from the shortened list, but is complete in the full one. */
  lemma SubtreeComplete(t: Tree, c: Tree, ns: seq<FolderNode>, rest: seq<FolderNode>, path: set<Handle>,
    parent: Handle, x: Folder)
    requires Safe(ns, path, parent) && Extracted(t, ns, path) && rest == Keep(ns, Elems(t))
    requires forall g :: g in Siblings(t) ==> g.parent_id == parent
    requires Extracted(c, rest, path + {parent})
    requires x in HandleOrder(rest) && x.parent_id == parent
    requires Siblings(c) == Kids(HandleOrder(rest), x.folder_id)
    ensures Complete(c, HandleOrder(ns)) && Siblings(c) == Kids(HandleOrder(ns), x.folder_id)
  {
    forall f | f in Elems(c) + {x}
      ensures Kids(HandleOrder(rest), f.folder_id) == Kids(HandleOrder(ns), f.folder_id)
    {
      RestIn(t, ns, rest, f);
      NotParent(ns, path, parent, f);
      SameKids(t, ns, path, parent, f);
    }
    CompleteLift(c, HandleOrder(rest), HandleOrder(ns));
  }

  lemma MidwayKids(t: Tree, c: Tree, ns: seq<FolderNode>, b: seq<FolderNode>, parent: Handle)
    requires b != [] && b[0].folder.parent_id == parent
    requires Kids(HandleOrder(ns), parent) == Kids(HandleOrder(b), parent) + Siblings(t)
    requires forall f :: f in Elems(c) ==> f.parent_id != parent
    ensures Kids(HandleOrder(ns), parent)
         == Kids(HandleOrder(Keep(b[1..], Elems(c))), parent) + Siblings(Node(b[0].folder, c, t))
  {
    var x, later := b[0].folder, HandleOrder(b[1..]);
    KidsSnoc(later, x, parent);
    HandleOrderKeep(b[1..], Elems(c));
    KidsWithout(later, Elems(c), parent);
    MoveOver(Kids(later, parent), x, Siblings(t));
  }

  lemma KidsSnoc(later: seq<Folder>, x: Folder, parent: Handle)
    requires x.parent_id == parent
    ensures Kids(later + [x], parent) == Kids(later, parent) + [x]
  {
    KidsConcat(later, [x], parent);
    assert Kids([x], parent) == [x];
  }

  lemma MoveOver<T>(a: seq<T>, x: T, b: seq<T>)
    ensures a + [x] + b == a + ([x] + b)
  {
  }

  lemma MidwayExtracted(t: Tree, c: Tree, ns: seq<FolderNode>, rest: seq<FolderNode>, path: set<Handle>,
    parent: Handle, x: Folder)
    requires Safe(ns, path, parent) && Extracted(t, ns, path) && rest == Keep(ns, Elems(t))
    requires forall g :: g in Siblings(t) ==> g.parent_id == parent
    requires Extracted(c, rest, path + {parent})
    requires x in HandleOrder(rest) && x.parent_id == parent
    requires Siblings(c) == Kids(HandleOrder(rest), x.folder_id)
    ensures Extracted(Node(x, c, t), ns, path)
  {
    forall f ensures f in HandleOrder(rest) <==> f in HandleOrder(ns) && f !in Elems(t) { RestIn(t, ns, rest, f); }
    SubtreeComplete(t, c, ns, rest, path, parent, x);
    ExtractedDistinct(t, c, x, HandleOrder(ns), HandleOrder(rest));
  }

  /** Cutting `x` and its subtree `c` out of the list and putting them in front of the siblings. */
  lemma MidwayExtract(t: Tree, c: Tree, ns: seq<FolderNode>, a: seq<FolderNode>, b: seq<FolderNode>, path: set<Handle>,
    parent: Handle)
    requires Safe(ns, path, parent) && Midway(t, ns, a, b, path, parent)
    requires b != [] && b[0].folder.parent_id == parent
    requires Extracted(c, a + b, path + {parent})
    requires Siblings(c) == Kids(HandleOrder(a + b), b[0].folder.folder_id)
    ensures Midway(Node(b[0].folder, c, t), ns, Keep(a, Elems(c)), Keep(b[1..], Elems(c)), path, parent)
  {
    var x := b[0];
    HandleOrderIn(a + b, x);
    forall g | g in Siblings(t) ensures g.parent_id == parent {
      KidsIn(HandleOrder(ns), parent, g);
    }
    MidwayExtracted(t, c, ns, a + b, path, parent, x.folder);
    SafeKeep(ns, Elems(t), path, parent);
    MidwayRing(t, c, ns, a, b);
    MidwayKids(t, c, ns, b, parent);
    forall n | n in Keep(a, Elems(c)) ensures n.folder.parent_id != parent { KeepIn(a, Elems(c), n); }
  }

  lemma ExtractedDistinct(t: Tree, c: Tree, x: Folder, list: seq<Folder>, rest: seq<Folder>)
    requires Distinct(list) && Distinct(Preorder(t)) && Distinct(Preorder(c))
    requires forall f :: f in Elems(t) ==> f in list
    requires forall f :: f in Elems(c) + {x} ==> f in rest && x !in Elems(c)
    requires forall f :: f in rest ==> f in list && f !in Elems(t)
    ensures Distinct(Preorder(Node(x, c, t)))
  {
    forall f ensures (f in Preorder(t) <==> f in Elems(t)) && (f in Preorder(c) <==> f in Elems(c)) {
      PreorderElems(t, f);
      PreorderElems(c, f);
    }
    var p, q := Preorder(c), Preorder(t);
    forall f, g | f in list && g in list && f != g ensures f.folder_id != g.folder_id {
      if f.folder_id == g.folder_id { SameId(list, f, g); }
    }
    assert x in list;
    forall i | 0 <= i < |p| ensures p[i] in list && p[i] != x && p[i] !in Elems(t) { assert p[i] in p; }
    forall i | 0 <= i < |q| ensures q[i] in list && q[i] in Elems(t) { assert q[i] in q; }
    assert Preorder(Node(x, c, t)) == [x] + p + q;
  }

  lemma MidwayRing(t: Tree, c: Tree, ns: seq<FolderNode>, a: seq<FolderNode>, b: seq<FolderNode>)
    requires a + b == Keep(ns, Elems(t)) && b != []
    requires Distinct(HandleOrder(a + b))
    ensures Keep(a, Elems(c)) + Keep(b[1..], Elems(c)) == Keep(ns, Elems(Node(b[0].folder, c, t)))
  {
    var x := b[0];
    var gone := Elems(c) + {x.folder};
    KeepTwice(ns, Elems(t), gone);
    assert Elems(t) + gone == Elems(Node(x.folder, c, t));
    assert a + b == a + ([x] + b[1..]);
    KeepConcat(a, b, gone);
    forall n | n in a + b[1..] ensures n.folder != x.folder {
      OneNodePerFolder(a, b, n);
    }
    KeepSame(a, Elems(c), gone);
    KeepSame(b[1..], Elems(c), gone);
  }

  lemma OneNodePerFolder(a: seq<FolderNode>, b: seq<FolderNode>, n: FolderNode)
    requires b != [] && Distinct(HandleOrder(a + b)) && n in a + b[1..]
    ensures n.folder.folder_id != b[0].folder.folder_id
  {
    HandleOrderConcat(a, b);
    var p, q := HandleOrder(b[1..]), HandleOrder(a);
    assert HandleOrder(a + b) == p + [b[0].folder] + q;
    if n in a {
      HandleOrderIn(a, n);
      var j :| 0 <= j < |q| && q[j] == n.folder;
      assert (p + [b[0].folder] + q)[|p| + 1 + j] == n.folder;
    } else {
      HandleOrderIn(b[1..], n);
      var j :| 0 <= j < |p| && p[j] == n.folder;
      assert (p + [b[0].folder] + q)[j] == n.folder;
    }
    assert (p + [b[0].folder] + q)[|p|] == b[0].folder;
  }

  lemma {:induction false} KeepSame(ns: seq<FolderNode>, g1: set<Folder>, g2: set<Folder>)
    requires forall n :: n in ns ==> (n.folder in g1 <==> n.folder in g2)
    ensures Keep(ns, g1) == Keep(ns, g2)
  {
    if ns != [] {
      KeepSame(ns[1..], g1, g2);
    }
  }

  /** Takes `curr` off the circle and puts it, with its children below it, in front of its siblings. */
  method Attach(curr: FolderNode, children: FolderNode?, retfolders: FolderNode?, ghost list: FolderNode,
    ghost a: seq<FolderNode>, ghost b: seq<FolderNode>, ghost c: Tree, ghost t: Tree, ghost region: set<FolderNode>)
    requires Ring(list, a + [curr] + b)
    requires Linked(children, c, region) && Linked(retfolders, t, region)
    requires list !in region && curr !in region && forall n :: n in a + b ==> n !in region
    modifies Circle(list, a + [curr] + b)
    ensures Ring(list, a + b)
    ensures Linked(curr, Node(curr.folder, c, t), region + {curr})
  {
    Unlink(curr, list, a, b);
    assert list != curr && curr !in a && curr !in b by {
      ghost var ns := a + [curr] + b;
      assert ns[|a|] == curr;
      assert forall i :: 0 <= i < |a| ==> a[i] == ns[i];
      assert forall i :: 0 <= i < |b| ==> b[i] == ns[|a| + 1 + i];
    }
    assert Linked(children, c, region) && Linked(retfolders, t, region);
    assert forall i :: 0 <= i <= |a + b| + 1 ==> Cyc(list, a + b, i) != curr;
    curr.child := children;
    curr.sibling := retfolders;
    assert Linked(children, c, region) && Linked(retfolders, t, region);
    LinkedGrow(children, c, region, region + {curr});
    LinkedGrow(retfolders, t, region, region + {curr});
  }

  /** The list around `x` after the recursive call, which cannot have taken `x`. */
  lemma RingAround(a: seq<FolderNode>, b: seq<FolderNode>, gone: set<Folder>)
    requires b != [] && b[0].folder !in gone
    ensures Keep(a + b, gone) == Keep(a, gone) + [b[0]] + Keep(b[1..], gone)
  {
    KeepConcat(a, b, gone);
  }

  lemma KeepExactly(ns: seq<FolderNode>, gone: set<Folder>)
    ensures forall n :: n in Keep(ns, gone) <==> n in ns && n.folder !in gone
  {
    forall n ensures n in Keep(ns, gone) <==> n in ns && n.folder !in gone { KeepIn(ns, gone, n); }
  }

  lemma HalvesInside(a: seq<FolderNode>, b: seq<FolderNode>, ns: seq<FolderNode>, gone: set<Folder>)
    requires a + b == Keep(ns, gone)
    ensures forall n :: n in a || n in b ==> n in ns
    ensures forall n :: n in a + b ==> n in ns && n.folder !in gone
  {
    KeepExactly(ns, gone);
    forall n | n in a || n in b ensures n in ns {
      assert n in a + b;
    }
  }

  lemma UnprotectedShrinks(ns: seq<FolderNode>, rest: seq<FolderNode>, path: set<Handle>, curr: FolderNode)
    requires forall n :: n in rest ==> n in ns
    requires curr in ns && curr.folder.parent_id !in path
    ensures Unprotected(rest, path + {curr.folder.parent_id}) < Unprotected(ns, path)
  {
    assert curr in Unprotected(ns, path) && curr !in Unprotected(rest, path + {curr.folder.parent_id});
  }

  /** Cuts the folders below `parent` out of the list around `list` and returns them as a hierarchy. */
  method GetSubfoldersForFolder(list: FolderNode, parent: Handle, ghost ns: seq<FolderNode>, ghost path: set<Handle>)
    returns (retfolders: FolderNode?, ghost t: Tree)
    requires Ring(list, ns) && Safe(ns, path, parent)
    modifies Circle(list, ns)
    ensures Ring(list, Keep(ns, Elems(t)))
    ensures Linked(retfolders, t, Taken(ns, Elems(t)))
    ensures IsForest(t, HandleOrder(ns), parent)
    ensures Extracted(t, ns, path)
    decreases Unprotected(ns, path)
  {
    retfolders, t := null, Leaf;
    ghost var a: seq<FolderNode>, b := [], ns;
    KeepAll(ns, {});
    var iter := list.sibling;
    assert a + b == ns;
    assert Cyc(list, ns, 0).sibling == Cyc(list, ns, 1);
    while iter != list
      invariant Ring(list, a + b) && iter == Cyc(list, a + b, |a| + 1)
      invariant Midway(t, ns, a, b, path, parent)
      invariant Linked(retfolders, t, Taken(ns, Elems(t)))
      decreases |b|
    {
      assert b != [] && iter == b[0];
      if iter.folder.parent_id != parent {
        MidwaySkip(t, ns, a, b, path, parent);
        ghost var all := a + b;
        assert Cyc(list, all, |a| + 1).sibling == Cyc(list, all, |a| + 2);
        iter := iter.sibling;
        a, b := a + [b[0]], b[1..];
        assert a + b == all;
      } else {
        retfolders, iter, t, a, b := Extract(list, parent, iter, retfolders, ns, path, t, a, b);
      }
    }
  }

  /** One turn of the loop that recurses: the iterator steps on before `curr` leaves the list. */
  method Extract(list: FolderNode, parent: Handle, curr: FolderNode, retfolders: FolderNode?, ghost ns: seq<FolderNode>,
    ghost path: set<Handle>, ghost t: Tree, ghost a: seq<FolderNode>, ghost b: seq<FolderNode>)
    returns (first: FolderNode, iter: FolderNode?, ghost t': Tree, ghost a': seq<FolderNode>, ghost b': seq<FolderNode>)
    requires Ring(list, a + b) && list !in ns && Safe(ns, path, parent)
    requires Midway(t, ns, a, b, path, parent)
    requires Linked(retfolders, t, Taken(ns, Elems(t)))
    requires b != [] && curr == b[0] && curr.folder.parent_id == parent
    modifies Circle(list, ns)
    ensures Ring(list, a' + b') && iter == Cyc(list, a' + b', |a'| + 1)
    ensures Midway(t', ns, a', b', path, parent)
    ensures Linked(first, t', Taken(ns, Elems(t')))
    ensures |b'| < |b|
    decreases Unprotected(ns, path), 0
  {
    SafeKeep(ns, Elems(t), path, parent);
    SafeBelow(a + b, path, parent, curr);
    HalvesInside(a, b, ns, Elems(t));
    UnprotectedShrinks(ns, a + b, path, curr);
    var children;
    ghost var c;
    children, c := GetSubfoldersForFolder(list, curr.folder.folder_id, a + b, path + {parent});
    MidwayExtract(t, c, ns, a, b, path, parent);
    RingAround(a, b, Elems(c));
    first, iter, a', b', t' := Splice(list, curr, children, retfolders, ns, t, c, a, b);
  }

  /** What is already linked, what leaves the list now and what stays on it are apart. */
  lemma SpliceRegions(list: FolderNode, ns: seq<FolderNode>, t: Tree, c: Tree, a: seq<FolderNode>, b: seq<FolderNode>)
    returns (region: set<FolderNode>)
    requires b != [] && b[0].folder !in Elems(c)
    requires a + b == Keep(ns, Elems(t)) && list !in ns
    ensures region == Taken(ns, Elems(t)) + Taken(a + b, Elems(c))
    ensures list !in region && b[0] !in region
    ensures forall n :: n in Keep(a, Elems(c)) + Keep(b[1..], Elems(c)) ==> n !in region
    ensures Circle(list, Keep(a, Elems(c)) + [b[0]] + Keep(b[1..], Elems(c))) <= Circle(list, ns)
    ensures region + {b[0]} <= Taken(ns, Elems(Node(b[0].folder, c, t)))
    ensures |Keep(b[1..], Elems(c))| < |b|
  {
    region := Taken(ns, Elems(t)) + Taken(a + b, Elems(c));
    HalvesInside(a, b, ns, Elems(t));
    RingAround(a, b, Elems(c));
    KeepExactly(a + b, Elems(c));
    var all := Keep(a + b, Elems(c));
    forall n | n in all ensures n in ns {
      KeepIn(a + b, Elems(c), n);
      KeepIn(ns, Elems(t), n);
    }
    assert Circle(list, all) <= Circle(list, ns);
    KeepShorter(b[1..], Elems(c));
  }

  /** What a turn does to the links. */
  method Splice(list: FolderNode, curr: FolderNode, children: FolderNode?, retfolders: FolderNode?,
    ghost ns: seq<FolderNode>, ghost t: Tree, ghost c: Tree, ghost a: seq<FolderNode>, ghost b: seq<FolderNode>)
    returns (first: FolderNode, iter: FolderNode?, ghost a': seq<FolderNode>, ghost b': seq<FolderNode>, ghost t': Tree)
    requires b != [] && curr == b[0] && curr.folder !in Elems(c)
    requires a + b == Keep(ns, Elems(t))
    requires Ring(list, Keep(a + b, Elems(c)))
    requires list !in ns
    requires Linked(retfolders, t, Taken(ns, Elems(t)))
    requires Linked(children, c, Taken(a + b, Elems(c)))
    modifies Circle(list, ns)
    ensures a' == Keep(a, Elems(c)) && b' == Keep(b[1..], Elems(c)) && t' == Node(curr.folder, c, t)
    ensures Ring(list, a' + b') && iter == Cyc(list, a' + b', |a'| + 1)
    ensures Linked(first, t', Taken(ns, Elems(t')))
    ensures |b'| < |b|
  {
    a', b', t' := Keep(a, Elems(c)), Keep(b[1..], Elems(c)), Node(curr.folder, c, t);
    RingAround(a, b, Elems(c));
    ghost var all := a' + [curr] + b';
    assert Cyc(list, all, |a'| + 1) == curr;
    assert Cyc(list, all, |a'| + 1).sibling == Cyc(list, all, |a'| + 2);
    iter := curr.sibling;
    ghost var region := SpliceRegions(list, ns, t, c, a, b);
    LinkedGrow(children, c, Taken(a + b, Elems(c)), region);
    LinkedGrow(retfolders, t, Taken(ns, Elems(t)), region);
    Attach(curr, children, retfolders, list, a', b', c, t, region);
    first := curr;
    LinkedGrow(first, t', region + {curr}, Taken(ns, Elems(t')));
  }

  lemma KeepShorter(ns: seq<FolderNode>, gone: set<Folder>)
    ensures |Keep(ns, gone)| <= |ns|
  {
  }

  /** Links a new node in right behind the head. */
  method InsertFront(folder: FolderNode, head: FolderNode, ghost ns: seq<FolderNode>)
    requires Ring(head, ns) && folder !in ns && folder != head
    modifies Circle(head, ns), folder
    ensures Ring(head, [folder] + ns)
  {
    assert Cyc(head, ns, 0).sibling == Cyc(head, ns, 1);
    folder.sibling := head.sibling;
    folder.child := head;
    head.sibling.child := folder;
    head.sibling := folder;
    ghost var out := [folder] + ns;
    forall i: nat | 0 < i <= |out|
      ensures Cyc(head, out, i).sibling == Cyc(head, out, i + 1) && Cyc(head, out, i + 1).child == Cyc(head, out, i)
    {
      assert Cyc(head, out, i + 1) == Cyc(head, ns, i);
      assert old(Cyc(head, ns, i - 1).sibling == Cyc(head, ns, i) && Cyc(head, ns, i).child == Cyc(head, ns, i - 1));
      if i > 1 {
        assert Cyc(head, out, i) == Cyc(head, ns, i - 1);
      }
    }
  }

  /** The temporary list of all folders of the storage, in reverse handle order. */
  method CollectFolders(objects: seq<PTPObject>, storage: Handle) returns (head: FolderNode, ghost ns: seq<FolderNode>)
    ensures Ring(head, ns) && fresh(Circle(head, ns))
    ensures HandleOrder(ns) == Listed(objects, storage)
    ensures exists at :: Selects(HandleOrder(ns), objects, storage, at)
  {
    hide Selects;
    head := new FolderNode(Folder(0, 0, 0, []));
    ns := [];
    head.sibling, head.child := head, head;
    for i := 0 to |objects|
      invariant Ring(head, ns) && fresh(Circle(head, ns))
      invariant HandleOrder(ns) == Listed(objects[..i], storage)
    {
      var ob := objects[i];
      assert objects[..i + 1][..i] == objects[..i];
      if ob.format != PTP_OFC_ASSOCIATION {
        continue;
      }
      if storage != PTP_GOH_ALL_STORAGE && storage != ob.storage_id {
        continue;
      }
      var folder := new FolderNode(FolderOf(ob));
      InsertFront(folder, head, ns);
      ns := [folder] + ns;
    }
    assert objects[..|objects|] == objects;
    ghost var at := ListedSelects(objects, storage);
  }

  /**
   Where no chain of parents comes back to itself, the folders out of reach are protected from the
   start: nothing that is ever expanded is the parent of one of them.
   */
  lemma SafeAtRoot(ns: seq<FolderNode>, root: Handle) returns (dead: set<Handle>)
    requires Distinct(HandleOrder(ns)) && !Loops(HandleOrder(ns), root)
    ensures Safe(ns, dead, root)
  {
    var list := HandleOrder(ns);
    dead := set f | f in list && !Reaches(list, f, root) :: f.parent_id;
    if root in dead {
      var f :| f in list && !Reaches(list, f, root) && f.parent_id == root;
      TopReached(list, f, root);
    }
    DistinctLoops(list, root);
    forall n | n in ns && n.folder.folder_id in dead + {root} ensures n.folder.parent_id in dead {
      HandleOrderIn(ns, n);
      if Reaches(list, n.folder, root) {
        var f :| f in list && !Reaches(list, f, root) && f.parent_id == n.folder.folder_id;
        KidReached(list, n.folder, f, root);
      }
    }
  }

  lemma TakenApart(head: FolderNode, ns: seq<FolderNode>, t: Tree) returns (region: set<FolderNode>)
    requires head !in ns
    ensures region == Taken(ns, Elems(t)) && region !! Circle(head, Keep(ns, Elems(t)))
    ensures region <= Circle(head, ns) && Circle(head, Keep(ns, Elems(t))) <= Circle(head, ns)
    ensures HandleOrder(Keep(ns, Elems(t))) == Without(HandleOrder(ns), Elems(t))
  {
    region := Taken(ns, Elems(t));
    var rest := Keep(ns, Elems(t));
    forall n | n in rest ensures n in ns && n.folder !in Elems(t) { KeepIn(ns, Elems(t), n); }
    HandleOrderKeep(ns, Elems(t));
  }

  lemma NoKidsNoLoop(list: seq<Folder>, root: Handle)
    ensures Kids(list, root) == [] ==> !Loops(list, root)
  {
    if Kids(list, root) == [] && Loops(list, root) {
      var path: seq<Folder> :| Chain(list, path, root) && Returns(path, root);
      KidsIn(list, root, path[0]);
    }
  }

  /**
   Asks only for what any hierarchy needs: with distinct handles one exists just when no chain comes
   back to itself.
   */
  method GetFolderListForStorage(objects: seq<PTPObject>, storage: Handle)
    returns (rv: FolderNode?, ghost t: Tree, ghost region: set<FolderNode>, ghost orphans: seq<FolderNode>)
    requires Distinct(Listed(objects, storage))
    requires !Loops(Listed(objects, storage), RootOf(Listed(objects, storage)))
    ensures fresh(region) && Linked(rv, t, region)
    ensures IsForest(t, Listed(objects, storage), RootOf(Listed(objects, storage)))
    ensures Distinct(Preorder(t))
    ensures HandleOrder(orphans) == Without(Listed(objects, storage), Elems(t))
    ensures forall n :: n in orphans ==> fresh(n) && n.sibling == null && n.child == null
    ensures forall f :: f in Elems(t) <==> exists ob :: Hangs(objects, storage, ob) && Same(f, ob)
    ensures OrphansAre(objects, storage, HandleOrder(orphans))
    ensures SiblingsAsCached(objects, storage, t)
  {
    var head;
    ghost var ns;
    head, ns := CollectFolders(objects, storage);
    NoKidsNoLoop(HandleOrder(ns), ROOT);
    ghost var dead := SafeAtRoot(ns, ROOT);
    rv, t := GetSubfoldersForFolder(head, ROOT, ns, dead);
    if rv == null {
      assert t == Leaf;
      KeepAll(ns, {});
      dead := SafeAtRoot(ns, BROKEN_ROOT);
      rv, t := GetSubfoldersForFolder(head, BROKEN_ROOT, ns, dead);
    } else {
      assert Siblings(t)[0] == t.folder;
    }
    region := TakenApart(head, ns, t);
    orphans := FreeOrphans(head, Keep(ns, Elems(t)), region, rv, t);
    assert forall n :: n in orphans ==> n in Circle(head, orphans);
    TreeOfCache(objects, storage, t, HandleOrder(orphans));
  }

  lemma TreeOfCache(objects: seq<PTPObject>, storage: Handle, t: Tree, orphans: seq<Folder>)
    requires IsForest(t, Listed(objects, storage), RootOf(Listed(objects, storage)))
    requires orphans == Without(Listed(objects, storage), Elems(t))
    ensures forall f :: f in Elems(t) <==> exists ob :: Hangs(objects, storage, ob) && Same(f, ob)
    ensures OrphansAre(objects, storage, orphans)
    ensures SiblingsAsCached(objects, storage, t)
  {
    hide IsForest, Listed, RootOf, OrphansAre, SiblingsAsCached, Hangs, Same;
    forall f ensures f in Elems(t) <==> exists ob :: Hangs(objects, storage, ob) && Same(f, ob) {
      HierarchyOfObjects(objects, storage, t, f);
    }
    forall f ensures f in orphans <==> f in Listed(objects, storage) && f !in Elems(t) {
      WithoutIn(Listed(objects, storage), Elems(t), f);
    }
    OrphansWritten(objects, storage, t, orphans);
    SiblingsWritten(objects, storage, t);
  }

  /** Empties what is left of the list; the extracted hierarchy is not touched. */
  method FreeOrphans(head: FolderNode, ghost ns: seq<FolderNode>, ghost region: set<FolderNode>, ghost rv: FolderNode?,
    ghost t: Tree)
    returns (ghost orphans: seq<FolderNode>)
    requires Ring(head, ns) && Linked(rv, t, region)
    requires region !! Circle(head, ns)
    modifies Circle(head, ns)
    ensures head.sibling == head && head.child == head
    ensures orphans == ns && forall n :: n in ns ==> n.sibling == null && n.child == null
    ensures Linked(rv, t, region)
  {
    hide Linked;
    orphans := [];
    ghost var rest := ns;
    assert Cyc(head, rest, 0).sibling == Cyc(head, rest, 1) && Cyc(head, rest, 1).child == Cyc(head, rest, 0);
    while head.sibling != head
      invariant orphans + rest == ns && Ring(head, rest)
      invariant head.sibling == Cyc(head, rest, 1) && Cyc(head, rest, 1).child == head
      invariant forall n :: n in orphans ==> n !in Circle(head, rest) && n.sibling == null && n.child == null
      invariant Circle(head, rest) <= Circle(head, ns)
      invariant Linked(rv, t, region)
      decreases |rest|
    {
      var curr := FreeFirst(head, rest);
      MoveOver(orphans, curr, rest[1..]);
      assert [curr] + rest[1..] == rest;
      orphans, rest := orphans + [curr], rest[1..];
    }
    assert orphans + [] == ns;
  }

  method FreeFirst(head: FolderNode, ghost ns: seq<FolderNode>) returns (curr: FolderNode)
    requires Ring(head, ns) && ns != [] && head.sibling == ns[0]
    modifies Circle(head, ns)
    ensures curr == ns[0] && curr.sibling == null && curr.child == null
    ensures Ring(head, ns[1..])
    ensures head.sibling == Cyc(head, ns[1..], 1) && Cyc(head, ns[1..], 1).child == head
  {
    hide Ring;
    curr := head.sibling;
    ghost var rest := ns[1..];
    RingFirst(head, ns);
    assert ns == [] + [curr] + rest && [] + rest == rest;
    Unlink(curr, head, [], rest);
    curr.child := null;
    curr.sibling := null;
    RingEnds(head, rest);
  }

  lemma RingFirst(head: FolderNode, ns: seq<FolderNode>)
    requires Ring(head, ns) && ns != []
    ensures ns[0] != head && ns[0] !in ns[1..]
  {
  }

  lemma RingEnds(head: FolderNode, ns: seq<FolderNode>)
    requires Ring(head, ns)
    ensures head.sibling == Cyc(head, ns, 1) && Cyc(head, ns, 1).child == head
  {
    assert Cyc(head, ns, 0).sibling == Cyc(head, ns, 1) && Cyc(head, ns, 1).child == Cyc(head, ns, 0);
  }
}
