/** The doubly linked list of storages: sorting it in place and choosing where a file goes. */
module StorageList {
  import opened StableSort
  import opened FolderForest

  datatype StorageInfo = StorageInfo(storageType: int, accessCapability: int, maxCapacity: nat, freeSpaceInBytes: nat)

  class Storage {
    const id: Handle
    var info: StorageInfo
    var next: Storage?
    var prev: Storage?

    constructor (id: Handle, info: StorageInfo)
      ensures this.id == id && this.info == info && next == null && prev == null
    {
      this.id, this.info, next, prev := id, info, null, null;
    }
  }

  const SORTBY_NOTSORTED := 0
  const SORTBY_FREESPACE := 1
  const SORTBY_MAXSPACE := 2

  /** What is compared; an unknown criterion compares nothing. */
  function Key(info: StorageInfo, sortby: int): nat {
    if sortby == SORTBY_FREESPACE then info.freeSpaceInBytes
    else if sortby == SORTBY_MAXSPACE then info.maxCapacity
    else 0
  }

  ghost predicate NoRepeats(s: seq<Item<Storage>>) {
    forall i, j :: 0 <= i < j < |s| ==> s[i].node != s[j].node
  }

  ghost function Nodes(s: seq<Item<Storage>>): set<Storage> {
    set i | 0 <= i < |s| :: s[i].node
  }

  ghost predicate Keyed(s: seq<Item<Storage>>, sortby: int)
    reads Nodes(s)
  {
    forall i :: 0 <= i < |s| ==> s[i].key == Key(s[i].node.info, sortby)
  }

  /** Neighbours point at each other and the first node has no predecessor; the last `next` is left open. */
  ghost predicate Linked(s: seq<Item<Storage>>)
    reads Nodes(s)
  {
    && NoRepeats(s)
    && (s != [] ==> s[0].node.prev == null)
    && (forall i :: 0 <= i < |s| - 1 ==> s[i].node.next == s[i + 1].node)
    && (forall i :: 0 < i < |s| ==> s[i].node.prev == s[i - 1].node)
  }

  /** A whole list from `head`, with both ends null. */
  ghost predicate DList(head: Storage?, s: seq<Item<Storage>>)
    reads Nodes(s)
  {
    && Linked(s)
    && head == (if s == [] then null else s[0].node)
    && (s != [] ==> s[|s| - 1].node.next == null)
  }

  /** The inner loop: the first storage with a largest key. */
  method FindLargest(oldhead: Storage, sortby: int, ghost s: seq<Item<Storage>>) returns (ptr2: Storage, ghost m: nat)
    requires DList(oldhead, s) && Keyed(s, sortby)
    ensures m < |s| && ptr2 == s[m].node && m == FirstMax(s)
  {
    var ptr1: Storage? := oldhead;
    ptr2, m := oldhead, 0;
    ghost var i := 0;
    while ptr1 != null
      invariant 0 <= i <= |s| && m < |s| && ptr2 == s[m].node && (m < i || i == m == 0)
      invariant ptr1 == if i < |s| then s[i].node else null
      invariant forall j :: 0 <= j < i ==> s[j].key <= s[m].key
      invariant forall j :: 0 <= j < m ==> s[j].key < s[m].key
      decreases |s| - i
    {
      if sortby == SORTBY_FREESPACE && ptr1.info.freeSpaceInBytes > ptr2.info.freeSpaceInBytes {
        ptr2, m := ptr1, i;
      }
      if sortby == SORTBY_MAXSPACE && ptr1.info.maxCapacity > ptr2.info.maxCapacity {
        ptr2, m := ptr1, i;
      }
      ptr1 := ptr1.next;
      i := i + 1;
    }
    FirstMaxUnique(s, m, FirstMax(s));
  }

  /** Takes `ptr2` off the old list; its own links are left stale. */
  method Detach(ptr2: Storage, head: Storage?, ghost sortby: int, ghost s: seq<Item<Storage>>, ghost m: nat)
    returns (oldhead: Storage?)
    requires DList(head, s) && Keyed(s, sortby) && m < |s| && ptr2 == s[m].node
    modifies (Nodes(s))`next, (Nodes(s))`prev
    ensures DList(oldhead, Remove(s, m)) && Keyed(Remove(s, m), sortby)
  {
    assert m > 0 ==> ptr2.prev == s[m - 1].node;
    assert m + 1 < |s| ==> ptr2.next == s[m + 1].node;
    assert s[0].node in Nodes(s);
    oldhead := head;
    var ptr1: Storage?;
    if ptr2.prev != null {
      ptr1 := ptr2.prev;
      ptr1.next := ptr2.next;
    } else {
      oldhead := ptr2.next;
      if oldhead != null {
        oldhead.prev := null;
      }
    }
    ptr1 := ptr2.next;
    if ptr1 != null {
      ptr1.prev := ptr2.prev;
    } else {
      ptr1 := ptr2.prev;
      if ptr1 != null {
        ptr1.next := null;
      }
    }
    ghost var rest := Remove(s, m);
    assert forall i :: 0 <= i < |rest| ==> rest[i] == s[if i < m then i else i + 1];
  }

  /** Puts `ptr2` behind the tail of the new list and makes it the tail. */
  method Append(newlist: Storage?, ptr2: Storage, ghost done: seq<Item<Storage>>, ghost x: Item<Storage>)
    returns (tail: Storage)
    requires Linked(done) && newlist == (if done == [] then null else done[|done| - 1].node)
    requires x.node == ptr2 && ptr2 !in Nodes(done)
    modifies (Nodes(done + [x]))`next, (Nodes(done + [x]))`prev
    ensures Linked(done + [x]) && tail == ptr2
  {
    ghost var all := done + [x];
    assert all[|done|].node == ptr2;
    assert forall i :: 0 <= i < |done| ==> all[i] == done[i] && done[i].node in Nodes(done);
    if newlist == null {
      tail := ptr2;
      tail.prev := null;
    } else {
      assert newlist == all[|done| - 1].node;
      ptr2.prev := newlist;
      newlist.next := ptr2;
      tail := newlist.next;
    }
    forall i | 0 <= i < |done|
      ensures all[i].node.next == all[i + 1].node && all[i + 1].node.prev == all[i].node
    {
      if i < |done| - 1 {
        assert done[i].node.next == done[i + 1].node && done[i + 1].node.prev == done[i].node;
      }
    }
  }

  /** Closes the new list and walks back to its first node. */
  method Rewind(tail: Storage, ghost done: seq<Item<Storage>>) returns (head: Storage)
    requires done != [] && Linked(done) && tail == done[|done| - 1].node
    modifies tail`next
    ensures DList(head, done)
  {
    tail.next := null;
    head := tail;
    ghost var i := |done| - 1;
    while head.prev != null
      invariant 0 <= i < |done| && head == done[i].node && Linked(done)
      decreases i
    {
      head := head.prev;
      i := i - 1;
    }
    assert i > 0 ==> done[i].node.prev == done[i - 1].node;
  }

  lemma NodesSnoc(done: seq<Item<Storage>>, x: Item<Storage>)
    ensures Nodes(done + [x]) == Nodes(done) + {x.node}
  {
    var all := done + [x];
    assert all[|done|] == x;
    assert forall i :: 0 <= i < |done| ==> all[i] == done[i];
  }

  lemma NodesRemove(s: seq<Item<Storage>>, m: nat)
    requires m < |s| && NoRepeats(s)
    ensures Nodes(Remove(s, m)) == Nodes(s) - {s[m].node}
  {
    var rest := Remove(s, m);
    forall n | n in Nodes(s) - {s[m].node} ensures n in Nodes(rest) {
      var i :| 0 <= i < |s| && s[i].node == n;
      assert rest[if i < m then i else i - 1] == s[i];
    }
    forall n | n in Nodes(rest) ensures n in Nodes(s) - {s[m].node} {
      var i :| 0 <= i < |rest| && rest[i].node == n;
      assert rest[i] == s[if i < m then i else i + 1];
    }
  }

  // ----- the orders, written out

  ghost predicate ByFreeSpace(s: seq<Item<Storage>>)
    reads (Nodes(s))`info
  {
    forall i, j :: 0 <= i < j < |s| ==> s[i].node.info.freeSpaceInBytes >= s[j].node.info.freeSpaceInBytes
  }

  ghost predicate ByCapacity(s: seq<Item<Storage>>)
    reads (Nodes(s))`info
  {
    forall i, j :: 0 <= i < j < |s| ==> s[i].node.info.maxCapacity >= s[j].node.info.maxCapacity
  }

  lemma SortedKeyed(s: seq<Item<Storage>>, sortby: int)
    requires Keyed(s, sortby)
    ensures Keyed(Sorted(s), sortby)
  {
    SortedIsPermutation(s);
    var sorted := Sorted(s);
    forall i | 0 <= i < |sorted| ensures sorted[i].key == Key(sorted[i].node.info, sortby) {
      assert sorted[i] in multiset(s);
    }
  }

  /** Nothing to compare, nothing to move. */
  lemma {:induction false} SortedSame(s: seq<Item<Storage>>)
    requires forall i :: 0 <= i < |s| ==> s[i].key == 0
    ensures Sorted(s) == s
  {
    if s != [] {
      assert IsFirstMax(s, 0);
      FirstMaxUnique(s, 0, FirstMax(s));
      assert Remove(s, 0) == s[1..];
      SortedSame(s[1..]);
    }
  }

  lemma EmptyList(head: Storage?, s: seq<Item<Storage>>)
    requires DList(head, s)
    ensures head == null <==> s == []
    ensures s == [] ==> Sorted(s) == s
  {
  }

  lemma SortedWritten(s: seq<Item<Storage>>, sortby: int)
    requires Keyed(s, sortby)
    ensures sortby == 1 ==> ByFreeSpace(Sorted(s))
    ensures sortby == 2 ==> ByCapacity(Sorted(s))
    ensures sortby != 1 && sortby != 2 ==> Sorted(s) == s
  {
    hide Sorted;
    SortedKeyed(s, sortby);
    forall i, j | 0 <= i < j < |Sorted(s)| ensures Sorted(s)[i].key >= Sorted(s)[j].key {
      SortedDescends(s, i, j);
    }
    if sortby != 1 && sortby != 2 {
      SortedSame(s);
    }
  }

  class MtpDevice {
    var storage: Storage?

    /**
     Sorts the storage list in place by selection. `s` is the list with the keys compared, which stay as
     they are.
     */
    method SortStorageBy(sortby: int, ghost s: seq<Item<Storage>>) returns (r: int)
      requires DList(storage, s) && Keyed(s, sortby)
      modifies this, (Nodes(s))`next, (Nodes(s))`prev
      ensures r == if s == [] then -1 else 0
      ensures DList(storage, if sortby == SORTBY_NOTSORTED then s else Sorted(s))
      ensures sortby == 1 ==> old(ByFreeSpace(Sorted(s)))
      ensures sortby == 2 ==> old(ByCapacity(Sorted(s)))
      ensures sortby != 1 && sortby != 2 ==> DList(storage, s)
    {
      SortedWritten(s, sortby);
      hide Sorted, Keyed, DList, ByFreeSpace, ByCapacity;
      EmptyList(storage, s);
      if storage == null {
        return -1;
      }
      if sortby == SORTBY_NOTSORTED {
        return 0;
      }
      storage := SelectedFrom(storage, sortby, s);
      return 0;
    }

    /** The list built from the largest storage down, seen from its head. */
    static method SelectedFrom(oldhead: Storage, sortby: int, ghost s: seq<Item<Storage>>) returns (head: Storage?)
      requires DList(oldhead, s) && Keyed(s, sortby)
      modifies (Nodes(s))`next, (Nodes(s))`prev
      ensures DList(head, Sorted(s))
    {
      var newlist := SelectAll(oldhead, sortby, s);
      head := Rewind(newlist, Sorted(s));
    }

    /** Between two turns: `rest` is still on the old list, `done` is on the new one, ending in `tail`. */
    static ghost predicate Midway(oldhead: Storage?, tail: Storage?, sortby: int,
      s: seq<Item<Storage>>, rest: seq<Item<Storage>>, done: seq<Item<Storage>>)
      reads Nodes(rest), Nodes(done)
    {
      && DList(oldhead, rest) && Keyed(rest, sortby)
      && Linked(done) && tail == (if done == [] then null else done[|done| - 1].node)
      && Nodes(rest) !! Nodes(done) && Nodes(rest) + Nodes(done) == Nodes(s)
      && done + Sorted(rest) == Sorted(s)
    }

    /** The outer loop: the old list is used up from its largest storage down. */
    static method SelectAll(head: Storage, sortby: int, ghost s: seq<Item<Storage>>) returns (newlist: Storage)
      requires DList(head, s) && Keyed(s, sortby)
      modifies (Nodes(s))`next, (Nodes(s))`prev
      ensures Sorted(s) != [] && Linked(Sorted(s)) && newlist == Sorted(s)[|Sorted(s)| - 1].node
      ensures Nodes(Sorted(s)) == Nodes(s)
    {
      var oldhead: Storage?, tail: Storage? := head, null;
      ghost var rest: seq<Item<Storage>>, done: seq<Item<Storage>> := s, [];
      while oldhead != null
        invariant Midway(oldhead, tail, sortby, s, rest, done)
        decreases |rest|
      {
        oldhead, tail, rest, done := MoveLargest(oldhead, tail, sortby, s, rest, done);
      }
      assert rest == [];
      assert done + [] == done;
      newlist := tail;
    }

    /** One turn of the sort: the first largest of the old list becomes the tail of the new one. */
    static method MoveLargest(head: Storage, tail: Storage?, sortby: int,
      ghost s: seq<Item<Storage>>, ghost rest: seq<Item<Storage>>, ghost done: seq<Item<Storage>>)
      returns (oldhead: Storage?, newlist: Storage, ghost rest': seq<Item<Storage>>, ghost done': seq<Item<Storage>>)
      requires Midway(head, tail, sortby, s, rest, done)
      modifies (Nodes(s))`next, (Nodes(s))`prev
      ensures Midway(oldhead, newlist, sortby, s, rest', done')
      ensures |rest'| < |rest|
    {
      var ptr2;
      ghost var m;
      ptr2, m := FindLargest(head, sortby, rest);
      NodesRemove(rest, m);
      NodesSnoc(done, rest[m]);
      SortedStep(done, rest);
      rest', done' := Remove(rest, m), done + [rest[m]];
      oldhead, newlist := Relink(ptr2, head, tail, sortby, rest, m, done);
    }

    static method Relink(ptr2: Storage, head: Storage, tail: Storage?, sortby: int,
      ghost rest: seq<Item<Storage>>, ghost m: nat, ghost done: seq<Item<Storage>>)
      returns (oldhead: Storage?, newlist: Storage)
      requires DList(head, rest) && Keyed(rest, sortby) && m < |rest| && ptr2 == rest[m].node
      requires Linked(done) && tail == if done == [] then null else done[|done| - 1].node
      requires Nodes(rest) !! Nodes(done)
      modifies (Nodes(rest) + Nodes(done))`next, (Nodes(rest) + Nodes(done))`prev
      ensures DList(oldhead, Remove(rest, m)) && Keyed(Remove(rest, m), sortby)
      ensures Linked(done + [rest[m]]) && newlist == ptr2
    {
      NodesRemove(rest, m);
      NodesSnoc(done, rest[m]);
      oldhead := Detach(ptr2, head, sortby, rest, m);
      newlist := Append(tail, ptr2, done, rest[m]);
      assert Keyed(Remove(rest, m), sortby);
    }
  }
}
