/**
 The recursion that takes folders off the list, on values and for any list, repeated handles
 included: when it ends, and what it has taken then. Nodes of the list are numbers that stand for
 the folders `fs`; `fuel` bounds the depth of the recursion.
 */
module FolderRecursion {
  import opened FolderForest
  import opened FolderLoops
  import opened FolderTrail

  /** No end within the depth allowed; the caller's node taken by a deeper call; or the tree and the nodes taken. */
  datatype Run = Out | Lost | Done(t: Tree, gone: set<nat>)

  predicate Valid(fs: seq<Folder>, list: seq<nat>) {
    forall i :: 0 <= i < |list| ==> list[i] < |fs|
  }

  function Filter(list: seq<nat>, gone: set<nat>): (r: seq<nat>)
    ensures |r| <= |list| && forall n :: n in r <==> n in list && n !in gone
    ensures forall i :: 0 <= i < |r| ==> r[i] in list
  {
    if list == [] then []
    else if list[0] in gone then Filter(list[1..], gone)
    else [list[0]] + Filter(list[1..], gone)
  }

  function Get(fs: seq<Folder>, list: seq<nat>, parent: Handle, fuel: nat): Run
    requires Valid(fs, list)
    decreases fuel, |list| + 1
  {
    Scan(fs, [], list, parent, Leaf, fuel)
  }

  /** The loop: `a` is passed over, `b` is still to come. A deeper call works on the whole list. */
  function Scan(fs: seq<Folder>, a: seq<nat>, b: seq<nat>, parent: Handle, t: Tree, fuel: nat): Run
    requires Valid(fs, a) && Valid(fs, b)
    decreases fuel, |b|
  {
    if b == [] then Done(t, {})
    else
      var x := b[0];
      assert x in b;
      if fs[x].parent_id != parent then Scan(fs, a + [x], b[1..], parent, t, fuel)
      else if fuel == 0 then Out
      else
        var inner := Get(fs, a + b, fs[x].folder_id, fuel - 1);
        if !inner.Done? then inner
        else if x in inner.gone then Lost
        else
          var off := inner.gone + {x};
          var later := Scan(fs, Filter(a, off), Filter(b[1..], off), parent, Node(fs[x], inner.t, t), fuel);
          if later.Done? then Done(later.t, off + later.gone) else later
  }

  function Folders(fs: seq<Folder>, list: seq<nat>): (r: seq<Folder>)
    requires Valid(fs, list)
    ensures |r| == |list| && forall i :: 0 <= i < |list| ==> list[i] < |fs| && r[i] == fs[list[i]]
  {
    if list == [] then []
    else
      assert list[0] in list;
      [fs[list[0]]] + Folders(fs, list[1..])
  }

  lemma FoldersIn(fs: seq<Folder>, list: seq<nat>, f: Folder)
    requires Valid(fs, list)
    ensures f in Folders(fs, list) <==> exists n :: n in list && n < |fs| && fs[n] == f
  {
    if n :| n in list && n < |fs| && fs[n] == f {
      var i :| 0 <= i < |list| && list[i] == n;
      assert Folders(fs, list)[i] == f;
    }
    if f in Folders(fs, list) {
      var i :| 0 <= i < |list| && Folders(fs, list)[i] == f;
      assert list[i] in list;
    }
  }

  lemma FoldersSubset(fs: seq<Folder>, part: seq<nat>, list: seq<nat>)
    requires Valid(fs, list) && forall n :: n in part ==> n in list
    ensures Valid(fs, part) && forall f :: f in Folders(fs, part) ==> f in Folders(fs, list)
  {
    forall i | 0 <= i < |part| ensures part[i] < |fs| { assert part[i] in part; }
    forall f | f in Folders(fs, part) ensures f in Folders(fs, list) {
      FoldersIn(fs, part, f);
      FoldersIn(fs, list, f);
    }
  }

  lemma First(fs: seq<Folder>, a: seq<nat>, b: seq<nat>)
    requires Valid(fs, a) && Valid(fs, b) && b != []
    ensures b[0] in a + b && b[0] < |fs| && Valid(fs, a + [b[0]]) && Valid(fs, b[1..]) && Valid(fs, a + b)
    ensures a + [b[0]] + b[1..] == a + b
  {
    assert b == [b[0]] + b[1..];
  }

  /** One turn that takes a node: what the deeper call and the rest of the loop work on. */
  lemma Turn(fs: seq<Folder>, a: seq<nat>, b: seq<nat>, off: set<nat>) returns (a': seq<nat>, b': seq<nat>)
    requires Valid(fs, a) && Valid(fs, b) && b != [] && b[0] in off
    ensures a' == Filter(a, off) && b' == Filter(b[1..], off) && |b'| < |b|
    ensures Valid(fs, a + b) && Valid(fs, a') && Valid(fs, b') && Valid(fs, a' + b')
    ensures b[0] in a + b && b[0] < |fs|
    ensures forall n :: n in a' + b' <==> n in a + b && n !in off
    ensures forall f :: f in Folders(fs, a' + b') ==> f in Folders(fs, a + b)
  {
    a', b' := Filter(a, off), Filter(b[1..], off);
    assert b == [b[0]] + b[1..];
    FoldersSubset(fs, a' + b', a + b);
  }

  // ----- what is taken is within reach

  lemma ReachesMore(part: seq<Folder>, list: seq<Folder>, f: Folder, root: Handle)
    requires (forall g :: g in part ==> g in list) && Reaches(part, f, root)
    ensures Reaches(list, f, root)
  {
    var path :| Chain(part, path, root) && path[|path| - 1] == f;
    assert Chain(list, path, root);
  }

  lemma ReachesThrough(list: seq<Folder>, x: Folder, f: Folder, parent: Handle)
    requires x in list && x.parent_id == parent && Reaches(list, f, x.folder_id)
    ensures Reaches(list, f, parent)
  {
    var path :| Chain(list, path, x.folder_id) && path[|path| - 1] == f;
    var longer := [x] + path;
    assert Chain(list, longer, parent) && longer[|longer| - 1] == f;
  }

  ghost predicate WithinReach(fs: seq<Folder>, list: seq<nat>, parent: Handle, gone: set<nat>)
    requires Valid(fs, list)
  {
    forall n :: n in gone ==> n in list && n < |fs| && Reaches(Folders(fs, list), fs[n], parent)
  }

  lemma {:induction false} TakenWithinReach(fs: seq<Folder>, a: seq<nat>, b: seq<nat>, parent: Handle, t: Tree,
    fuel: nat)
    requires Valid(fs, a) && Valid(fs, b) && Valid(fs, a + b) && Scan(fs, a, b, parent, t, fuel).Done?
    ensures WithinReach(fs, a + b, parent, Scan(fs, a, b, parent, t, fuel).gone)
    decreases fuel, |b|
  {
    hide Reaches, Folders, Filter;
    if b != [] {
      var x := b[0];
      First(fs, a, b);
      if fs[x].parent_id != parent {
        TakenWithinReach(fs, a + [x], b[1..], parent, t, fuel);
      } else {
        var inner := Get(fs, a + b, fs[x].folder_id, fuel - 1);
        assert [] + (a + b) == a + b;
        TakenWithinReach(fs, [], a + b, fs[x].folder_id, Leaf, fuel - 1);
        var off := inner.gone + {x};
        var a', b' := Turn(fs, a, b, off);
        TakenWithinReach(fs, a', b', parent, Node(fs[x], inner.t, t), fuel);
        var later := Scan(fs, a', b', parent, Node(fs[x], inner.t, t), fuel);
        ReachJoined(fs, a + b, a' + b', x, parent, inner.gone, later.gone);
      }
    }
  }

  lemma ReachJoined(fs: seq<Folder>, list: seq<nat>, rest: seq<nat>, x: nat, parent: Handle, inner: set<nat>,
    later: set<nat>)
    requires Valid(fs, list) && Valid(fs, rest) && x in list && fs[x].parent_id == parent
    requires forall n :: n in rest ==> n in list
    requires forall f :: f in Folders(fs, rest) ==> f in Folders(fs, list)
    requires WithinReach(fs, list, fs[x].folder_id, inner) && WithinReach(fs, rest, parent, later)
    ensures WithinReach(fs, list, parent, inner + {x} + later)
  {
    hide Reaches, Folders;
    FoldersIn(fs, list, fs[x]);
    TopReached(Folders(fs, list), fs[x], parent);
    forall n | n in inner ensures Reaches(Folders(fs, list), fs[n], parent) {
      ReachesThrough(Folders(fs, list), fs[x], fs[n], parent);
    }
    forall n | n in later ensures Reaches(Folders(fs, list), fs[n], parent) {
      ReachesMore(Folders(fs, rest), Folders(fs, list), fs[n], parent);
    }
  }

  // ----- on a list with a loop there is no end

  /** Down a chain that may be empty. */
  lemma GoAlong(t: Tree, list: seq<Folder>, root: Handle, path: seq<Folder>) returns (c: Tree)
    requires IsForest(t, list, root) && (path == [] || Chain(list, path, root))
    ensures IsForest(c, list, if path == [] then root else path[|path| - 1].folder_id)
    ensures if path == [] then c == t else Size(c) < Size(t)
  {
    if path == [] {
      c := t;
    } else {
      c := GoDown(t, list, root, path);
    }
  }

  lemma ChainPart(list: seq<Folder>, root: Handle, path: seq<Folder>, i: nat, j: nat)
    requires Chain(list, path, root) && i < j <= |path|
    ensures Chain(list, path[i..j], if i == 0 then root else path[i - 1].folder_id)
  {
    assert i > 0 ==> path[i - 1 + 1].parent_id == path[i - 1].folder_id;
  }

  /** A chain that comes back at its end. */
  ghost predicate EndsBack(path: seq<Folder>, root: Handle) {
    && path != []
    && (path[|path| - 1].folder_id == root
        || exists j :: 0 <= j < |path| - 1 && path[j].folder_id == path[|path| - 1].folder_id)
  }

  lemma LoopEndsBack(list: seq<Folder>, root: Handle) returns (path: seq<Folder>)
    requires Loops(list, root)
    ensures Chain(list, path, root) && EndsBack(path, root)
  {
    var long: seq<Folder> :| Chain(list, long, root) && Returns(long, root);
    var i :| 0 <= i < |long| &&
      (long[i].folder_id == root || exists j :: 0 <= j < i && long[j].folder_id == long[i].folder_id);
    path := long[..i + 1];
    if long[i].folder_id != root {
      var j :| 0 <= j < i && long[j].folder_id == long[i].folder_id;
      assert path[j].folder_id == path[i].folder_id;
    }
  }

  /** If a loop below `parent` touches what hangs below the kid `x`, it lies below `x` too. */
  lemma TouchedLoop(list: seq<Folder>, parent: Handle, x: Folder, path: seq<Folder>, i: nat)
    requires Chain(list, path, parent) && EndsBack(path, parent) && i < |path|
    requires x in list && x.parent_id == parent && (path[i] == x || Reaches(list, path[i], x.folder_id))
    ensures Loops(list, x.folder_id)
  {
    if !Loops(list, x.folder_id) {
      ForestExists(list, x.folder_id);
      var t :| IsForest(t, list, x.folder_id);
      var m, above := |path| - 1, [];
      if path[i] != x {
        above :| Chain(list, above, x.folder_id) && above[|above| - 1] == path[i];
      }
      var c := GoAlong(t, list, x.folder_id, above);
      if path[m].folder_id == parent {
        TouchedRootLoop(t, c, list, parent, x, path, i);
      } else {
        var j :| 0 <= j < m && path[j].folder_id == path[m].folder_id;
        TouchedInnerLoop(c, list, parent, path, i, j);
      }
    }
  }

  lemma TouchedRootLoop(t: Tree, c: Tree, list: seq<Folder>, parent: Handle, x: Folder, path: seq<Folder>, i: nat)
    requires Chain(list, path, parent) && i < |path| && path[|path| - 1].folder_id == parent
    requires x in list && x.parent_id == parent
    requires IsForest(c, list, path[i].folder_id) && Size(c) <= Size(t)
    ensures !IsForest(t, list, x.folder_id)
  {
    var m := |path| - 1;
    if i < m {
      ChainPart(list, parent, path, i + 1, m + 1);
    }
    var d := GoAlong(c, list, path[i].folder_id, path[i + 1..m + 1]);
    assert Chain(list, [x], parent);
    var e := GoDown(d, list, parent, [x]);
    if IsForest(t, list, x.folder_id) {
      ForestUnique(t, e, list);
    }
  }

  lemma TouchedInnerLoop(c: Tree, list: seq<Folder>, parent: Handle, path: seq<Folder>, i: nat, j: nat)
    requires Chain(list, path, parent) && i < |path| && j < |path| - 1 &&
      path[j].folder_id == path[|path| - 1].folder_id
    ensures !IsForest(c, list, path[i].folder_id)
  {
    if IsForest(c, list, path[i].folder_id) {
      if i <= j {
        LoopAhead(c, list, parent, path, i, j);
      } else {
        InsideLoop(c, list, parent, path, i, j);
      }
    }
  }

  lemma LoopAhead(c: Tree, list: seq<Folder>, parent: Handle, path: seq<Folder>, i: nat, j: nat)
    requires Chain(list, path, parent) && i <= j < |path| - 1 && path[j].folder_id == path[|path| - 1].folder_id
    ensures !IsForest(c, list, path[i].folder_id)
  {
    hide Chain;
    if IsForest(c, list, path[i].folder_id) {
      if i < j {
        ChainPart(list, parent, path, i + 1, j + 1);
      }
      var d := GoAlong(c, list, path[i].folder_id, path[i + 1..j + 1]);
      ChainPart(list, parent, path, j + 1, |path|);
      NoneSmaller(d, list, path[j].folder_id, path[j + 1..|path|]);
    }
  }

  lemma InsideLoop(c: Tree, list: seq<Folder>, parent: Handle, path: seq<Folder>, i: nat, j: nat)
    requires Chain(list, path, parent) && j < i < |path| && path[j].folder_id == path[|path| - 1].folder_id
    ensures !IsForest(c, list, path[i].folder_id)
  {
    hide Chain;
    if IsForest(c, list, path[i].folder_id) {
      if i < |path| - 1 {
        ChainPart(list, parent, path, i + 1, |path|);
      }
      var d := GoAlong(c, list, path[i].folder_id, path[i + 1..|path|]);
      ChainPart(list, parent, path, j + 1, i + 1);
      var e := GoDown(d, list, path[j].folder_id, path[j + 1..i + 1]);
      ForestUnique(c, e, list);
    }
  }

  /** What a kid's call takes away leaves every loop below the parent in place, unless there was one below the kid. */
  lemma LoopStays(fs: seq<Folder>, list: seq<nat>, rest: seq<nat>, x: nat, parent: Handle, gone: set<nat>)
    requires Valid(fs, list) && Valid(fs, rest) && x in list && fs[x].parent_id == parent
    requires forall n :: n in rest <==> n in list && n !in gone + {x}
    requires WithinReach(fs, list, fs[x].folder_id, gone)
    requires Loops(Folders(fs, list), parent) && !Loops(Folders(fs, list), fs[x].folder_id)
    ensures Loops(Folders(fs, rest), parent)
  {
    hide Reaches, Folders;
    var all := Folders(fs, list);
    var path := LoopEndsBack(all, parent);
    FoldersIn(fs, list, fs[x]);
    forall i | 0 <= i < |path| ensures path[i] in Folders(fs, rest) {
      FoldersIn(fs, list, path[i]);
      var n :| n in list && n < |fs| && fs[n] == path[i];
      if n in gone + {x} {
        TouchedLoop(all, parent, fs[x], path, i);
      }
      FoldersIn(fs, rest, path[i]);
    }
    assert Chain(Folders(fs, rest), path, parent);
    EndsBackReturns(path, parent);
  }

  lemma EndsBackReturns(path: seq<Folder>, root: Handle)
    requires EndsBack(path, root)
    ensures Returns(path, root)
  {
    var i := |path| - 1;
    assert 0 <= i < |path|;
  }

  ghost predicate NoKids(fs: seq<Folder>, list: seq<nat>, parent: Handle)
    requires Valid(fs, list)
  {
    forall n :: n in list ==> fs[n].parent_id != parent
  }

  lemma NoKidsNoLoop(fs: seq<Folder>, list: seq<nat>, parent: Handle)
    requires Valid(fs, list) && NoKids(fs, list, parent)
    ensures !Loops(Folders(fs, list), parent)
  {
    if Loops(Folders(fs, list), parent) {
      var path := LoopEndsBack(Folders(fs, list), parent);
      FoldersIn(fs, list, path[0]);
    }
  }

  /** A call that ends worked on a list without a loop below its parent. */
  lemma {:induction false} EndMeansNoLoop(fs: seq<Folder>, a: seq<nat>, b: seq<nat>, parent: Handle, t: Tree, fuel: nat)
    requires Valid(fs, a) && Valid(fs, b) && Valid(fs, a + b) && NoKids(fs, a, parent)
    requires Scan(fs, a, b, parent, t, fuel).Done?
    ensures !Loops(Folders(fs, a + b), parent)
    decreases fuel, |b|
  {
    hide Loops, Folders, Filter, WithinReach;
    if b == [] {
      assert a + b == a;
      NoKidsNoLoop(fs, a, parent);
    } else {
      var x := b[0];
      First(fs, a, b);
      if fs[x].parent_id != parent {
        EndMeansNoLoop(fs, a + [x], b[1..], parent, t, fuel);
      } else {
        var inner := Get(fs, a + b, fs[x].folder_id, fuel - 1);
        assert [] + (a + b) == a + b;
        EndMeansNoLoop(fs, [], a + b, fs[x].folder_id, Leaf, fuel - 1);
        TakenWithinReach(fs, [], a + b, fs[x].folder_id, Leaf, fuel - 1);
        var a', b' := Turn(fs, a, b, inner.gone + {x});
        EndMeansNoLoop(fs, a', b', parent, Node(fs[x], inner.t, t), fuel);
        if Loops(Folders(fs, a + b), parent) {
          LoopStays(fs, a + b, a' + b', x, parent, inner.gone);
        }
      }
    }
  }

  /** No call ever takes the node that a caller stands on, however handles repeat. */
  lemma {:induction false} NeverLost(fs: seq<Folder>, a: seq<nat>, b: seq<nat>, parent: Handle, t: Tree, fuel: nat)
    requires Valid(fs, a) && Valid(fs, b) && Valid(fs, a + b)
    ensures Scan(fs, a, b, parent, t, fuel) != Lost
    decreases fuel, |b|
  {
    hide Loops, Folders, Filter, Reaches;
    if b != [] {
      var x := b[0];
      First(fs, a, b);
      if fs[x].parent_id != parent {
        NeverLost(fs, a + [x], b[1..], parent, t, fuel);
      } else if fuel > 0 {
        var inner := Get(fs, a + b, fs[x].folder_id, fuel - 1);
        assert [] + (a + b) == a + b;
        NeverLost(fs, [], a + b, fs[x].folder_id, Leaf, fuel - 1);
        if inner.Done? {
          EndMeansNoLoop(fs, [], a + b, fs[x].folder_id, Leaf, fuel - 1);
          TakenWithinReach(fs, [], a + b, fs[x].folder_id, Leaf, fuel - 1);
          if x in inner.gone {
            SelfReachLoops(Folders(fs, a + b), fs[x]);
          }
          var a', b' := Turn(fs, a, b, inner.gone + {x});
          NeverLost(fs, a', b', parent, Node(fs[x], inner.t, t), fuel);
        }
      }
    }
  }

  lemma SelfReachLoops(list: seq<Folder>, x: Folder)
    requires Reaches(list, x, x.folder_id)
    ensures Loops(list, x.folder_id)
  {
    var path :| Chain(list, path, x.folder_id) && path[|path| - 1] == x;
    assert Returns(path, x.folder_id);
  }

  // ----- on every other list there is

  /** One turn of the loop, as an equation. */
  lemma ScanStep(fs: seq<Folder>, a: seq<nat>, b: seq<nat>, parent: Handle, t: Tree, fuel: nat)
    requires Valid(fs, a) && Valid(fs, b)
    ensures b == [] ==> Scan(fs, a, b, parent, t, fuel).Done?
    ensures b != [] && fs[b[0]].parent_id != parent ==>
      Scan(fs, a, b, parent, t, fuel) == Scan(fs, a + [b[0]], b[1..], parent, t, fuel)
    ensures b != [] && fs[b[0]].parent_id == parent && fuel > 0 ==>
      var inner := Get(fs, a + b, fs[b[0]].folder_id, fuel - 1);
      if !inner.Done? then Scan(fs, a, b, parent, t, fuel) == inner
      else if b[0] in inner.gone then Scan(fs, a, b, parent, t, fuel) == Lost
      else
        var off := inner.gone + {b[0]};
        var later := Scan(fs, Filter(a, off), Filter(b[1..], off), parent, Node(fs[b[0]], inner.t, t), fuel);
        Scan(fs, a, b, parent, t, fuel) == if later.Done? then Done(later.t, off + later.gone) else later
  {
  }

  /** Without a loop the depth is at most the number of folders. */
  lemma {:induction false} DepthSuffices(fs: seq<Folder>, a: seq<nat>, b: seq<nat>, parent: Handle, t: Tree, fuel: nat,
    all: seq<Folder>, root: Handle, above: seq<Folder>)
    requires Valid(fs, a) && Valid(fs, b) && Valid(fs, a + b)
    requires forall f :: f in Folders(fs, a + b) ==> f in all
    requires !Loops(all, root) && LeadsTo(all, root, above, parent) && |all| <= |above| + fuel
    ensures Scan(fs, a, b, parent, t, fuel) != Out
    decreases fuel, |b|
  {
    hide Loops, Folders, Filter, LeadsTo, Chain, Scan;
    ScanStep(fs, a, b, parent, t, fuel);
    if b != [] {
      var x := b[0];
      First(fs, a, b);
      if fs[x].parent_id != parent {
        DepthSuffices(fs, a + [x], b[1..], parent, t, fuel, all, root, above);
      } else {
        FoldersIn(fs, a + b, fs[x]);
        OneDeeper(all, root, above, fs[x], parent);
        assert [] + (a + b) == a + b;
        DepthSuffices(fs, [], a + b, fs[x].folder_id, Leaf, fuel - 1, all, root, above + [fs[x]]);
        var inner := Get(fs, a + b, fs[x].folder_id, fuel - 1);
        if inner.Done? {
          var a', b' := Turn(fs, a, b, inner.gone + {x});
          DepthSuffices(fs, a', b', parent, Node(fs[x], inner.t, t), fuel, all, root, above);
        }
      }
    }
  }

  lemma OneDeeper(all: seq<Folder>, root: Handle, above: seq<Folder>, f: Folder, parent: Handle)
    requires !Loops(all, root) && LeadsTo(all, root, above, parent) && f in all && f.parent_id == parent
    ensures LeadsTo(all, root, above + [f], f.folder_id) && |above| < |all|
  {
    hide Loops, LeadsTo, Chain;
    OneMore(all, root, above, f, parent);
    NotReturning(all, root, above + [f]);
    ChainShort(all, root, above + [f]);
  }

  lemma NotReturning(list: seq<Folder>, root: Handle, path: seq<Folder>)
    requires !Loops(list, root) && Chain(list, path, root)
    ensures !Returns(path, root)
  {
  }

  /**
   For every list and root: the recursion ends if and only if no chain of parents from the root comes
   back to itself, and then at a depth of at most the number of folders; else no depth is enough.
   */
  lemma RecursionEndsExactly(fs: seq<Folder>, list: seq<nat>, root: Handle, fuel: nat)
    requires Valid(fs, list)
    ensures Loops(Folders(fs, list), root) ==> Get(fs, list, root, fuel) == Out
    ensures !Loops(Folders(fs, list), root) && fuel >= |list| ==> Get(fs, list, root, fuel).Done?
  {
    hide Loops, Folders, Scan;
    assert [] + list == list;
    NeverLost(fs, [], list, root, Leaf, fuel);
    if Loops(Folders(fs, list), root) {
      if Get(fs, list, root, fuel).Done? {
        EndMeansNoLoop(fs, [], list, root, Leaf, fuel);
      }
    } else if fuel >= |list| {
      DepthSuffices(fs, [], list, root, Leaf, fuel, Folders(fs, list), root, []);
    }
  }

  // ----- and it has taken everything within reach

  /** Nothing that is left names `parent`, or a folder that was taken, as its parent. */
  ghost predicate Closed(fs: seq<Folder>, list: seq<nat>, parent: Handle, gone: set<nat>)
    requires Valid(fs, list)
  {
    forall n :: n in list && n !in gone ==>
      fs[n].parent_id != parent && forall k :: k in gone && k < |fs| ==> fs[n].parent_id != fs[k].folder_id
  }

  lemma {:induction false} TakenIsClosed(fs: seq<Folder>, a: seq<nat>, b: seq<nat>, parent: Handle, t: Tree, fuel: nat)
    requires Valid(fs, a) && Valid(fs, b) && Valid(fs, a + b) && NoKids(fs, a, parent)
    requires Scan(fs, a, b, parent, t, fuel).Done?
    ensures Closed(fs, a + b, parent, Scan(fs, a, b, parent, t, fuel).gone)
    decreases fuel, |b|
  {
    hide Filter, Folders, Closed, NoKids;
    if b == [] {
      assert a + b == a;
      NoKidsClosed(fs, a, parent);
    } else {
      var x := b[0];
      First(fs, a, b);
      if fs[x].parent_id == parent {
        var inner := Get(fs, a + b, fs[x].folder_id, fuel - 1);
        assert [] + (a + b) == a + b;
        NoneHasKids(fs, fs[x].folder_id);
        TakenIsClosed(fs, [], a + b, fs[x].folder_id, Leaf, fuel - 1);
        var a', b' := Turn(fs, a, b, inner.gone + {x});
        KidsStayAway(fs, a, a', parent);
        TakenIsClosed(fs, a', b', parent, Node(fs[x], inner.t, t), fuel);
        var later := Scan(fs, a', b', parent, Node(fs[x], inner.t, t), fuel);
        ClosedJoined(fs, a + b, a' + b', x, parent, inner.gone, later.gone);
      } else {
        NoKidsOn(fs, a, x, parent);
        TakenIsClosed(fs, a + [x], b[1..], parent, t, fuel);
      }
    }
  }

  lemma NoneHasKids(fs: seq<Folder>, parent: Handle)
    ensures NoKids(fs, [], parent)
  {
  }

  lemma NoKidsOn(fs: seq<Folder>, a: seq<nat>, x: nat, parent: Handle)
    requires Valid(fs, a) && x < |fs| && NoKids(fs, a, parent) && fs[x].parent_id != parent
    ensures Valid(fs, a + [x]) && NoKids(fs, a + [x], parent)
  {
  }

  lemma KidsStayAway(fs: seq<Folder>, a: seq<nat>, part: seq<nat>, parent: Handle)
    requires Valid(fs, a) && Valid(fs, part) && NoKids(fs, a, parent) && forall n :: n in part ==> n in a
    ensures NoKids(fs, part, parent)
  {
  }

  lemma NoKidsClosed(fs: seq<Folder>, list: seq<nat>, parent: Handle)
    requires Valid(fs, list) && NoKids(fs, list, parent)
    ensures Closed(fs, list, parent, {})
  {
  }

  lemma ClosedJoined(fs: seq<Folder>, list: seq<nat>, rest: seq<nat>, x: nat, parent: Handle, inner: set<nat>,
    later: set<nat>)
    requires Valid(fs, list) && Valid(fs, rest) && x < |fs|
    requires forall n :: n in rest <==> n in list && n !in inner + {x}
    requires Closed(fs, list, fs[x].folder_id, inner) && Closed(fs, rest, parent, later)
    ensures Closed(fs, list, parent, inner + {x} + later)
  {
  }

  lemma {:induction false} ChainTaken(fs: seq<Folder>, list: seq<nat>, parent: Handle, gone: set<nat>,
    path: seq<Folder>, i: nat, n: nat)
    requires Valid(fs, list) && Closed(fs, list, parent, gone) && Chain(Folders(fs, list), path, parent) && i < |path|
    requires n in list && fs[n] == path[i]
    ensures n in gone
    decreases i
  {
    hide Folders;
    if i > 0 {
      FoldersIn(fs, list, path[i - 1]);
      var k :| k in list && k < |fs| && fs[k] == path[i - 1];
      ChainTaken(fs, list, parent, gone, path, i - 1, k);
      assert path[i - 1 + 1].parent_id == path[i - 1].folder_id;
    }
  }

  /** A run that ends has taken exactly the nodes whose chain of parents reaches the root, repeated handles or not. */
  lemma TakesExactly(fs: seq<Folder>, list: seq<nat>, root: Handle, fuel: nat, n: nat)
    requires Valid(fs, list) && Get(fs, list, root, fuel).Done? && n in list
    ensures n in Get(fs, list, root, fuel).gone <==> Reaches(Folders(fs, list), fs[n], root)
  {
    hide Folders, Scan;
    var gone := Get(fs, list, root, fuel).gone;
    assert [] + list == list;
    TakenWithinReach(fs, [], list, root, Leaf, fuel);
    TakenIsClosed(fs, [], list, root, Leaf, fuel);
    if Reaches(Folders(fs, list), fs[n], root) {
      var path :| Chain(Folders(fs, list), path, root) && path[|path| - 1] == fs[n];
      ChainTaken(fs, list, root, gone, path, |path| - 1, n);
    }
  }

  /** Every folder of the tree hangs below one that it names as its parent. */
  ghost predicate Hangs(t: Tree, parent: Handle) {
    match t
    case Leaf => true
    case Node(f, c, s) => f.parent_id == parent && Hangs(c, f.folder_id) && Hangs(s, parent)
  }

  function FoldersOf(fs: seq<Folder>, gone: set<nat>): (r: set<Folder>)
    ensures forall f :: f in r <==> exists n :: n in gone && n < |fs| && fs[n] == f
  {
    set n | n in gone && n < |fs| :: fs[n]
  }

  /** `r` is `t` with the folders of `gone` added, each once, and everything below its parent. */
  ghost predicate Grown(fs: seq<Folder>, parent: Handle, t: Tree, r: Tree, gone: set<nat>) {
    Hangs(r, parent) && Size(r) == Size(t) + |gone| && Elems(r) == Elems(t) + FoldersOf(fs, gone)
  }

  /** The tree is made of the nodes taken, each once, and each below its parent. */
  lemma {:induction false} TreeOfTaken(fs: seq<Folder>, a: seq<nat>, b: seq<nat>, parent: Handle, t: Tree, fuel: nat)
    requires Valid(fs, a) && Valid(fs, b) && Valid(fs, a + b) && Hangs(t, parent)
    requires Scan(fs, a, b, parent, t, fuel).Done?
    ensures var r := Scan(fs, a, b, parent, t, fuel); Grown(fs, parent, t, r.t, r.gone)
    decreases fuel, |b|
  {
    hide Filter, Folders, WithinReach, Grown, Hangs;
    if b == [] {
      NothingGrown(fs, parent, t);
    } else {
      var x := b[0];
      First(fs, a, b);
      if fs[x].parent_id != parent {
        TreeOfTaken(fs, a + [x], b[1..], parent, t, fuel);
      } else {
        var inner := Get(fs, a + b, fs[x].folder_id, fuel - 1);
        assert [] + (a + b) == a + b;
        LeafHangs(fs[x].folder_id);
        TreeOfTaken(fs, [], a + b, fs[x].folder_id, Leaf, fuel - 1);
        var off := inner.gone + {x};
        var a', b' := Turn(fs, a, b, off);
        var t' := Node(fs[x], inner.t, t);
        NodeHangs(fs, parent, fs[x], inner.t, t, inner.gone);
        TreeOfTaken(fs, a', b', parent, t', fuel);
        var later := Scan(fs, a', b', parent, t', fuel);
        TakenWithinReach(fs, a', b', parent, t', fuel);
        TakenInList(fs, a' + b', parent, later.gone);
        GrownJoined(fs, parent, x, t, inner.t, later.t, inner.gone, later.gone);
      }
    }
  }

  lemma LeafHangs(parent: Handle)
    ensures Hangs(Leaf, parent)
  {
  }

  lemma NothingGrown(fs: seq<Folder>, parent: Handle, t: Tree)
    requires Hangs(t, parent)
    ensures Grown(fs, parent, t, t, {})
  {
    assert FoldersOf(fs, {}) == {};
  }

  lemma NodeHangs(fs: seq<Folder>, parent: Handle, f: Folder, c: Tree, t: Tree, gone: set<nat>)
    requires f.parent_id == parent && Hangs(t, parent) && Grown(fs, f.folder_id, Leaf, c, gone)
    ensures Hangs(Node(f, c, t), parent)
  {
  }

  lemma GrownJoined(fs: seq<Folder>, parent: Handle, x: nat, t: Tree, c: Tree, r: Tree, inner: set<nat>,
    later: set<nat>)
    requires x < |fs| && x !in inner && inner + {x} !! later
    requires Grown(fs, fs[x].folder_id, Leaf, c, inner) && Grown(fs, parent, Node(fs[x], c, t), r, later)
    ensures Grown(fs, parent, t, r, inner + {x} + later)
  {
    hide FoldersOf, Hangs, Elems, Size;
    FoldersJoined(fs, x, inner, later);
    NodeMeasures(fs[x], c, t);
    Rearranged(Elems(t), {fs[x]}, FoldersOf(fs, inner), FoldersOf(fs, later));
    Counted(inner, x, later);
  }

  lemma NodeMeasures(f: Folder, c: Tree, t: Tree)
    ensures Size(Leaf) == 0 && Elems(Leaf) == {}
    ensures Size(Node(f, c, t)) == 1 + Size(c) + Size(t) && Elems(Node(f, c, t)) == {f} + Elems(c) + Elems(t)
  {
  }

  lemma Rearranged<T>(a: set<T>, b: set<T>, c: set<T>, d: set<T>)
    ensures b + ({} + c) + a + d == a + (c + b + d)
  {
  }

  lemma Counted(inner: set<nat>, x: nat, later: set<nat>)
    requires x !in inner && inner + {x} !! later
    ensures |inner + {x} + later| == |inner| + 1 + |later|
  {
  }

  lemma TakenInList(fs: seq<Folder>, list: seq<nat>, parent: Handle, gone: set<nat>)
    requires Valid(fs, list) && WithinReach(fs, list, parent, gone)
    ensures forall n :: n in gone ==> n in list
  {
  }

  lemma FoldersJoined(fs: seq<Folder>, x: nat, inner: set<nat>, later: set<nat>)
    requires x < |fs|
    ensures FoldersOf(fs, inner + {x} + later) == FoldersOf(fs, inner) + {fs[x]} + FoldersOf(fs, later)
  {
  }
}
