/** Choosing the storage that a new file goes to. */
module StorageChoice {
  import opened FolderForest
  import opened StableSort
  import opened StorageList

  const PTP_ST_FIXED_ROM := 0x0001
  const PTP_ST_REMOVABLE_ROM := 0x0002
  const PTP_AC_READ_ONLY := 0x0001
  const PTP_AC_READ_ONLY_WITH_OBJECT_DELETION := 0x0002
  const UNKNOWN_SPACE: nat := 0xffff_ffff_ffff_ffff
  const NO_STORAGE: Handle := 0x0000_0000
  const FAILURE: Handle := 0xffff_ffff

  /** What the device answers when asked about its storages; a missing id is an error response. */
  datatype Responder = Responder(canQuery: bool, answers: map<Handle, StorageInfo>)

  predicate Writable(id: Handle, info: StorageInfo) {
    && info.storageType != PTP_ST_FIXED_ROM && info.storageType != PTP_ST_REMOVABLE_ROM
    && id % 0x1_0000 != 0
    && info.accessCapability != PTP_AC_READ_ONLY
    && info.accessCapability != PTP_AC_READ_ONLY_WITH_OBJECT_DELETION
  }

  /** The device confirms that the file fits, or cannot be asked. */
  predicate Fits(dev: Responder, id: Handle, filesize: nat) {
    dev.canQuery ==>
      id in dev.answers && dev.answers[id].freeSpaceInBytes != UNKNOWN_SPACE &&
        filesize <= dev.answers[id].freeSpaceInBytes
  }

  /** The device answers, knows its free space, and has that much. */
  ghost predicate ConfirmsRoom(dev: Responder, id: Handle, filesize: nat) {
    id in dev.answers && filesize <= dev.answers[id].freeSpaceInBytes != 0xffff_ffff_ffff_ffff
  }

  /** Not read-only memory, not a storage without a logical part, not read-only, and room if that can be asked. */
  ghost predicate TakesFile(dev: Responder, id: Handle, info: StorageInfo, filesize: nat) {
    && info.storageType != 1 && info.storageType != 2
    && id % 0x1_0000 != 0
    && info.accessCapability != 1 && info.accessCapability != 2
    && (dev.canQuery ==> ConfirmsRoom(dev, id, filesize))
  }

  /** The cached description after the device was asked about the storage. */
  function Refreshed(dev: Responder, id: Handle, info: StorageInfo): StorageInfo {
    if dev.canQuery && id in dev.answers then dev.answers[id] else info
  }

  /** The cached description after the walk: only writable storages that were visited are asked about. */
  function AfterWalk(dev: Responder, id: Handle, info: StorageInfo, visited: bool): StorageInfo {
    if visited && Writable(id, info) then Refreshed(dev, id, info) else info
  }

  method GetStorageFreespace(dev: Responder, storage: Storage) returns (ret: int, freespace: nat)
    modifies storage`info
    ensures storage.info == Refreshed(dev, storage.id, old(storage.info))
    ensures ret == 0 <==> (dev.canQuery ==> storage.id in dev.answers) && storage.info.freeSpaceInBytes != UNKNOWN_SPACE
    ensures ret == 0 ==> freespace == storage.info.freeSpaceInBytes
    ensures storage.info ==
      if dev.canQuery && storage.id in dev.answers then dev.answers[storage.id] else old(storage.info)
  {
    freespace := 0;
    if dev.canQuery {
      if storage.id !in dev.answers {
        return -1, freespace;
      }
      storage.info := dev.answers[storage.id];
    }
    if storage.info.freeSpaceInBytes == UNKNOWN_SPACE {
      return -1, freespace;
    }
    return 0, storage.info.freeSpaceInBytes;
  }

  method CheckIfFileFits(dev: Responder, storage: Storage, filesize: nat) returns (ret: int)
    modifies storage`info
    ensures ret == 0 <==> Fits(dev, storage.id, filesize)
    ensures ret == 0 <==> !dev.canQuery || ConfirmsRoom(dev, storage.id, filesize)
    ensures storage.info == Refreshed(dev, storage.id, old(storage.info))
  {
    if !dev.canQuery {
      return 0;
    }
    var r, freebytes := GetStorageFreespace(dev, storage);
    if r != 0 || filesize > freebytes {
      return -1;
    }
    return 0;
  }

  /** Position `k` is where the walk stops: the first storage that is writable and can take the file. */
  ghost predicate IsChoice(dev: Responder, s: seq<Item<Storage>>, fitsize: nat, k: nat)
    reads Nodes(s)
  {
    && k < |s|
    && CanTake(dev, s, fitsize, k)
    && forall j :: 0 <= j < k ==> !CanTake(dev, s, fitsize, j)
  }

  ghost predicate CanTake(dev: Responder, s: seq<Item<Storage>>, fitsize: nat, j: int)
    requires 0 <= j < |s|
    reads Nodes(s)
  {
    assert s[j].node in Nodes(s);
    Writable(s[j].node.id, s[j].node.info) && Fits(dev, s[j].node.id, fitsize)
  }

  lemma TakesFileIs(dev: Responder, fitsize: nat)
    ensures forall id: Handle, info ::
      TakesFile(dev, id, info, fitsize) <==> Writable(id, info) && Fits(dev, id, fitsize)
  {
  }

  /** Walks the list to the first storage that is writable and can take the file; `k` is its position. */
  method GetWriteableStorageId(dev: Responder, head: Storage?, fitsize: nat, ghost s: seq<Item<Storage>>)
    returns (store: Handle, ghost k: nat)
    requires DList(head, s)
    modifies (Nodes(s))`info
    ensures k <= |s| && (k < |s| ==> old(IsChoice(dev, s, fitsize, k)))
    ensures k == |s| ==> forall j :: 0 <= j < |s| ==> !old(CanTake(dev, s, fitsize, j))
    ensures store == if s == [] then 0 else if k == |s| then 0xffff_ffff else s[k].node.id
    ensures forall j :: 0 <= j < |s| ==> s[j].node.info == AfterWalk(dev, s[j].node.id, old(s[j].node.info), j <= k)
    ensures forall j :: 0 <= j < k ==> !TakesFile(dev, s[j].node.id, old(s[j].node.info), fitsize)
    ensures k < |s| ==> TakesFile(dev, s[k].node.id, old(s[k].node.info), fitsize)
  {
    TakesFileIs(dev, fitsize);
    hide TakesFile;
    assert forall j :: 0 <= j < |s| ==> s[j].node in Nodes(s);
    k := 0;
    if head == null {
      return NO_STORAGE, k;
    }
    var storage: Storage? := head;
    while storage != null
      invariant k <= |s| && storage == if k < |s| then s[k].node else null
      invariant forall j :: 0 <= j < k ==>
        !(Writable(s[j].node.id, old(s[j].node.info)) && Fits(dev, s[j].node.id, fitsize))
      invariant forall j :: 0 <= j < |s| ==> s[j].node.info == AfterWalk(dev, s[j].node.id, old(s[j].node.info), j < k)
      decreases |s| - k
    {
      assert s[k].node in Nodes(s);
      if storage.info.storageType == PTP_ST_FIXED_ROM || storage.info.storageType == PTP_ST_REMOVABLE_ROM {
        storage, k := storage.next, k + 1;
        continue;
      }
      if storage.id % 0x1_0000 == 0 {
        storage, k := storage.next, k + 1;
        continue;
      }
      if storage.info.accessCapability == PTP_AC_READ_ONLY ||
         storage.info.accessCapability == PTP_AC_READ_ONLY_WITH_OBJECT_DELETION {
        storage, k := storage.next, k + 1;
        continue;
      }
      var ret := CheckIfFileFits(dev, storage, fitsize);
      if ret != 0 {
        storage, k := storage.next, k + 1;
      } else {
        break;
      }
    }
    if storage == null {
      return FAILURE, k;
    }
    store := storage.id;
  }

  /** The device can be asked and says of every storage what the list says. */
  ghost predicate Stable(dev: Responder, s: seq<Item<Storage>>)
    reads Nodes(s)
  {
    dev.canQuery && forall x :: x in Nodes(s) ==> x.id in dev.answers && dev.answers[x.id] == x.info
  }

  /** Writable, with free space that is known. */
  ghost predicate Known(x: Storage)
    reads x
  {
    Writable(x.id, x.info) && x.info.freeSpaceInBytes != UNKNOWN_SPACE
  }

  lemma SortedNodes(s: seq<Item<Storage>>)
    ensures Nodes(Sorted(s)) == Nodes(s)
    ensures forall e :: e in s <==> e in Sorted(s)
  {
    SortedIsPermutation(s);
    forall e ensures e in s <==> e in Sorted(s) {
      assert multiset(Sorted(s))[e] == multiset(s)[e];
    }
    forall x | x in Nodes(s) ensures x in Nodes(Sorted(s)) {
      var i :| 0 <= i < |s| && s[i].node == x;
      assert s[i] in Sorted(s);
    }
    forall x | x in Nodes(Sorted(s)) ensures x in Nodes(s) {
      var i :| 0 <= i < |Sorted(s)| && Sorted(s)[i].node == x;
      assert Sorted(s)[i] in s;
    }
  }

  /** After sorting by free space the walk stops at the roomiest writable storage whose free space is known. */
  lemma ChoiceIsRoomiest(dev: Responder, s: seq<Item<Storage>>, fitsize: nat, k: nat, x: Storage)
    requires Stable(dev, s) && Keyed(s, SORTBY_FREESPACE)
    requires IsChoice(dev, Sorted(s), fitsize, k)
    requires x in Nodes(s) && Known(x)
    ensures Sorted(s)[k].node in Nodes(s) && Known(Sorted(s)[k].node)
    ensures x.info.freeSpaceInBytes <= Sorted(s)[k].node.info.freeSpaceInBytes
    ensures fitsize <= Sorted(s)[k].node.info.freeSpaceInBytes
  {
    SortedNodes(s);
    var sorted := Sorted(s);
    var j :| 0 <= j < |sorted| && sorted[j].node == x;
    assert CanTake(dev, sorted, fitsize, k);
    assert sorted[k] in sorted && sorted[j] in sorted;
    assert sorted[k] in s && sorted[j] in s && sorted[k].node in Nodes(sorted);
    if j < k {
      assert !CanTake(dev, sorted, fitsize, j);
    } else if k < j {
      SortedDescends(s, k, j);
    }
  }

  /** The walk goes past every storage only when none that is writable is known to be large enough. */
  lemma FailureMeansFull(dev: Responder, s: seq<Item<Storage>>, fitsize: nat, x: Storage)
    requires Stable(dev, s) && forall j :: 0 <= j < |s| ==> !CanTake(dev, s, fitsize, j)
    requires x in Nodes(s) && Known(x)
    ensures x.info.freeSpaceInBytes < fitsize
  {
    var j :| 0 <= j < |s| && s[j].node == x;
    assert !CanTake(dev, s, fitsize, j);
  }

  /** The walk on a device whose answers change nothing. */
  method WalkStable(dev: Responder, head: Storage?, fitsize: nat, ghost s: seq<Item<Storage>>)
    returns (store: Handle, ghost k: nat)
    requires DList(head, s) && Stable(dev, s)
    modifies (Nodes(s))`info
    ensures forall x :: x in Nodes(s) ==> x.info == old(x.info)
    ensures k <= |s| && (k < |s| ==> IsChoice(dev, s, fitsize, k))
    ensures k == |s| ==> forall j :: 0 <= j < |s| ==> !CanTake(dev, s, fitsize, j)
    ensures store == if s == [] then 0 else if k == |s| then 0xffff_ffff else s[k].node.id
  {
    assert forall j :: 0 <= j < |s| ==> s[j].node in Nodes(s);
    store, k := GetWriteableStorageId(dev, head, fitsize, s);
    forall x | x in Nodes(s) ensures x.info == old(x.info) {
      var j :| 0 <= j < |s| && s[j].node == x;
    }
  }

  /** No writable storage of the list has more free space, as far as it is known, and the file fits. */
  ghost predicate Roomiest(choice: Storage, s: seq<Item<Storage>>, fitsize: nat)
    reads Nodes(s)
  {
    && choice in Nodes(s) && Known(choice) && fitsize <= choice.info.freeSpaceInBytes
    && forall x :: x in Nodes(s) && Known(x) ==> x.info.freeSpaceInBytes <= choice.info.freeSpaceInBytes
  }

  ghost predicate AllFull(s: seq<Item<Storage>>, fitsize: nat)
    reads Nodes(s)
  {
    forall x :: x in Nodes(s) && Known(x) ==> x.info.freeSpaceInBytes < fitsize
  }

  lemma ChoiceOfSorted(dev: Responder, s: seq<Item<Storage>>, fitsize: nat, k: nat)
    requires Stable(dev, s) && Keyed(s, SORTBY_FREESPACE) && s != []
    requires k <= |Sorted(s)| && (k < |Sorted(s)| ==> IsChoice(dev, Sorted(s), fitsize, k))
    requires k == |Sorted(s)| ==> forall j :: 0 <= j < |Sorted(s)| ==> !CanTake(dev, Sorted(s), fitsize, j)
    ensures if k < |Sorted(s)| then Roomiest(Sorted(s)[k].node, s, fitsize) else AllFull(s, fitsize)
  {
    SortedNodes(s);
    var sorted := Sorted(s);
    if k < |sorted| {
      assert CanTake(dev, sorted, fitsize, k) && sorted[k].node in Nodes(sorted);
      forall x | x in Nodes(s) && Known(x) ensures x.info.freeSpaceInBytes <= sorted[k].node.info.freeSpaceInBytes {
        ChoiceIsRoomiest(dev, s, fitsize, k, x);
      }
    } else {
      forall x | x in Nodes(s) && Known(x) ensures x.info.freeSpaceInBytes < fitsize {
        FailureMeansFull(dev, sorted, fitsize, x);
      }
    }
  }

  /** Sorting by free space and then choosing, as when the list is fetched in that order and a file is sent. */
  method ChooseRoomiest(device: MtpDevice, dev: Responder, fitsize: nat, ghost s: seq<Item<Storage>>)
    returns (store: Handle, ghost choice: Storage?)
    requires DList(device.storage, s) && Keyed(s, SORTBY_FREESPACE) && Stable(dev, s)
    modifies device, (Nodes(s))`next, (Nodes(s))`prev, (Nodes(s))`info
    ensures DList(device.storage, Sorted(s)) && forall x :: x in Nodes(s) ==> x.info == old(x.info)
    ensures s == [] ==> store == NO_STORAGE && choice == null
    ensures choice != null ==> store == choice.id && Roomiest(choice, s, fitsize)
    ensures choice == null && s != [] ==> store == FAILURE && AllFull(s, fitsize)
  {
    hide Sorted, DList, Roomiest, AllFull, IsChoice, CanTake;
    SortedNodes(s);
    SortedIsPermutation(s);
    var r := device.SortStorageBy(SORTBY_FREESPACE, s);
    ghost var sorted := Sorted(s);
    ghost var k;
    store, k := WalkStable(dev, device.storage, fitsize, sorted);
    if s == [] {
      choice := null;
    } else {
      ChoiceOfSorted(dev, s, fitsize, k);
      choice := if k < |sorted| then sorted[k].node else null;
    }
  }
}
