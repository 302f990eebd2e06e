/** The object cache filled from one flat list of properties, which is grouped by object handle. */
module Metadata {
  import opened FolderForest
  import opened Text
  import opened Wrappers

  const NO_HANDLE: Handle := 0xFFFF_FFFF

  const STORAGE_ID: int := 0xDC01
  const OBJECT_FORMAT: int := 0xDC02
  const OBJECT_SIZE: int := 0xDC04
  const FILE_NAME: int := 0xDC07
  const PARENT_OBJECT: int := 0xDC0B

  /** What each member of the value union reads as. */
  datatype Value = Value(u16: nat, u32: nat, u64: nat, str: Option<Text>)

  datatype Prop = Prop(handle: Handle, code: int, value: Value)

  datatype Flag = ObjectInfoLoaded | MtpPropListLoaded | ParentObjectLoaded | StorageIdLoaded

  datatype CachedObject = CachedObject(
    oid: Handle,
    parent: nat,
    format: nat,
    size: nat,
    storage: nat,
    filename: Option<Text>,
    flags: set<Flag>,
    mtpProps: seq<Prop>)

  /** What freshly allocated, zeroed cells hold. */
  const ZEROED := CachedObject(0, 0, 0, 0, 0, None, {}, [])

  /** What one property does to its object; sizes lose all but 32 bits. */
  function Store(o: CachedObject, p: Prop, wide: bool): CachedObject {
    if p.code == PARENT_OBJECT then o.(parent := p.value.u32, flags := o.flags + {ParentObjectLoaded})
    else if p.code == OBJECT_FORMAT then o.(format := p.value.u16)
    else if p.code == OBJECT_SIZE then o.(size := if wide then p.value.u64 % 0x1_0000_0000 else p.value.u32)
    else if p.code == STORAGE_ID then o.(storage := p.value.u32, flags := o.flags + {StorageIdLoaded})
    else if p.code == FILE_NAME then if p.value.str.Some? then o.(filename := p.value.str) else o
    else o.(mtpProps := o.mtpProps + [p], flags := o.flags + {MtpPropListLoaded})
  }

  // ----- the grouping

  type Run = r: seq<Prop> | |r| > 0 witness [Prop(0, 0, Value(0, 0, 0, None))]

  /** The maximal runs of properties with the same handle. */
  function Runs(props: seq<Prop>): (r: seq<Run>)
    ensures props == [] <==> r == []
  {
    if props == [] then [] else AddProp(Runs(props[..|props| - 1]), props[|props| - 1])
  }

  /** Puts a property at the end of the last run, or after it. */
  function AddProp(runs: seq<Run>, p: Prop): (r: seq<Run>)
    ensures r != []
  {
    if runs != [] && runs[|runs| - 1][0].handle == p.handle then
      runs[..|runs| - 1] + [runs[|runs| - 1] + [p]]
    else runs + [[p]]
  }

  /** The runs that the first pass counts: the changes of handle, `last` being the handle before. */
  function Changes(props: seq<Prop>, last: Handle): nat {
    if props == [] then 0 else (if props[0].handle != last then 1 else 0) + Changes(props[1..], props[0].handle)
  }

  /** An object with the properties of its run. */
  function Collect(run: Run, wide: bool): CachedObject {
    var last := run[|run| - 1];
    Store(if |run| == 1 then ZEROED.(oid := last.handle) else Collect(run[..|run| - 1], wide), last, wide)
  }

  /** Nameless objects are given a name. */
  function Named(o: CachedObject): CachedObject {
    if o.filename.None? then o.(filename := Some(Ascii("<null>"))) else o
  }

  function Loaded(o: CachedObject): CachedObject {
    o.(flags := o.flags + {ObjectInfoLoaded})
  }

  /** The cache after both passes: an object for each run, of which the last keeps no name if it had none. */
  ghost predicate Grouped(val: seq<CachedObject>, runs: seq<Run>, wide: bool) {
    && |val| == |runs|
    && forall k :: 0 <= k < |val| ==>
         val[k] == if k < |val| - 1 then Named(Loaded(Collect(runs[k], wide))) else Loaded(Collect(runs[k], wide))
  }

  class PTPParams {
    var val: array<CachedObject>
    var len: nat

    method GetAllMetadataFast(props: seq<Prop>, wide: bool)
      requires props != [] ==> props[0].handle != NO_HANDLE
      modifies this
      ensures fresh(val) && val.Length == len == |Runs(props)|
      ensures Grouped(val[..len], Runs(props), wide) && Cached(val[..len], Runs(props), wide)
    {
      hide Runs, AddProp, Filled, Grouped, Cached, Collect, Loaded, Changes;
      var cnt := CountObjects(props);
      RunsAreChanges(props);
      len := 0;
      val := NewCells(cnt);
      NothingFilledYet(val[..], wide);
      var lasthandle := NO_HANDLE;
      var i: int := -1;
      for j := 0 to |props|
        invariant fresh(val) && val.Length == |Runs(props)|
        invariant Filled(val[..], Runs(props[..j]), wide)
        invariant i == |Runs(props[..j])| - 1
        invariant lasthandle == LastHandle(Runs(props[..j]))
      {
        RunsNext(props, j);
        RunsGrow(props, j + 1);
        i, lasthandle := TakeProp(props[j], val, i, lasthandle, Runs(props[..j]), wide);
      }
      assert props[..|props|] == props;
      ghost var filled := val[..];
      if i >= 0 {
        val[i] := Loaded(val[i]);
        len := i + 1;
      } else {
        len := 0;
      }
      assert val[..len] == val[..];
      LastLoaded(filled, val[..], Runs(props), wide);
      GroupedIsCached(val[..len], props, wide);
    }

    /** One turn of the second pass. */
    static method TakeProp(p: Prop, val: array<CachedObject>, i0: int, lasthandle0: Handle, ghost runs: seq<Run>,
      wide: bool)
      returns (i: int, lasthandle: Handle)
      requires Filled(val[..], runs, wide) && i0 == |runs| - 1 && lasthandle0 == LastHandle(runs)
      requires |AddProp(runs, p)| <= val.Length && (runs == [] ==> p.handle != NO_HANDLE)
      modifies val
      ensures Filled(val[..], AddProp(runs, p), wide) && i == |AddProp(runs, p)| - 1
      ensures lasthandle == LastHandle(AddProp(runs, p))
    {
      hide Store, Named, Loaded, Collect;
      ghost var before := val[..];
      i, lasthandle := i0, lasthandle0;
      if lasthandle != p.handle {
        if i >= 0 {
          CloseObject(val, i);
        }
        i := i + 1;
        lasthandle := p.handle;
        val[i] := val[i].(oid := p.handle);
        CollectFirst(p, wide);
      } else {
        CollectMore(runs[i], p, wide);
      }
      val[i] := Store(val[i], p, wide);
    }

    static method NewCells(n: nat) returns (val: array<CachedObject>)
      ensures fresh(val) && val.Length == n && forall k :: 0 <= k < n ==> val[k] == ZEROED
    {
      val := new CachedObject[n];
      forall k | 0 <= k < n {
        val[k] := ZEROED;
      }
    }

    /** The first pass. */
    static method CountObjects(props: seq<Prop>) returns (cnt: nat)
      ensures cnt == Changes(props, NO_HANDLE)
    {
      cnt := 0;
      var lasthandle := NO_HANDLE;
      for i := 0 to |props|
        invariant cnt + Changes(props[i..], lasthandle) == Changes(props, NO_HANDLE)
      {
        if lasthandle != props[i].handle {
          cnt := cnt + 1;
          lasthandle := props[i].handle;
        }
        assert props[i..][1..] == props[i + 1..];
      }
    }

    static method CloseObject(val: array<CachedObject>, i: nat)
      requires i < val.Length
      modifies val
      ensures val[..] == old(val[..])[i := Named(Loaded(old(val[i])))]
    {
      val[i] := Loaded(val[i]);
      if val[i].filename.None? {
        val[i] := val[i].(filename := Some(Ascii("<null>")));
      }
    }
  }

  /** All runs but the last are closed, the last is still being filled, and the rest is untouched. */
  ghost predicate Filled(val: seq<CachedObject>, runs: seq<Run>, wide: bool) {
    && |runs| <= |val|
    && (forall k :: 0 <= k < |runs| - 1 ==> val[k] == Named(Loaded(Collect(runs[k], wide))))
    && (runs != [] ==> val[|runs| - 1] == Collect(runs[|runs| - 1], wide))
    && forall k :: |runs| <= k < |val| ==> val[k] == ZEROED
  }

  lemma NothingFilledYet(val: seq<CachedObject>, wide: bool)
    requires forall k :: 0 <= k < |val| ==> val[k] == ZEROED
    ensures Runs([]) == [] && Filled(val, [], wide)
  {
  }

  lemma RunsNext(props: seq<Prop>, j: nat)
    requires j < |props|
    ensures Runs(props[..j + 1]) == AddProp(Runs(props[..j]), props[j])
    ensures j == 0 <==> Runs(props[..j]) == []
  {
    assert props[..j + 1][..j] == props[..j];
  }

  lemma LastLoaded(filled: seq<CachedObject>, val: seq<CachedObject>, runs: seq<Run>, wide: bool)
    requires Filled(filled, runs, wide) && |filled| == |runs|
    requires val == if runs == [] then filled else filled[|runs| - 1 := Loaded(filled[|runs| - 1])]
    ensures Grouped(val, runs, wide)
  {
    hide Collect, Loaded, Named;
  }

  lemma CollectFirst(p: Prop, wide: bool)
    ensures Collect([p], wide) == Store(ZEROED.(oid := p.handle), p, wide)
  {
  }

  lemma CollectMore(run: Run, p: Prop, wide: bool)
    ensures Collect(run + [p], wide) == Store(Collect(run, wide), p, wide)
  {
    assert (run + [p])[..|run|] == run;
  }

  ghost function LastHandle(runs: seq<Run>): Handle {
    if runs == [] then NO_HANDLE else runs[|runs| - 1][0].handle
  }

  lemma {:induction false} RunsGrow(props: seq<Prop>, n: nat)
    requires n <= |props|
    ensures |Runs(props[..n])| <= |Runs(props)|
    decreases |props| - n
  {
    if n < |props| {
      assert props[..n + 1][..n] == props[..n];
      RunsGrow(props, n + 1);
    } else {
      assert props[..n] == props;
    }
  }

  lemma {:induction false} ChangesAtEnd(props: seq<Prop>, p: Prop, last: Handle)
    ensures Changes(props + [p], last) ==
      Changes(props, last) + if p.handle != (if props == [] then last else props[|props| - 1].handle) then 1 else 0
  {
    if props != [] {
      assert (props + [p])[1..] == props[1..] + [p];
      ChangesAtEnd(props[1..], p, props[0].handle);
    }
  }

  lemma {:induction false} LastRun(props: seq<Prop>)
    requires props != []
    ensures LastHandle(Runs(props)) == props[|props| - 1].handle
  {
    AddLast(Runs(props[..|props| - 1]), props[|props| - 1]);
  }

  lemma AddLast(runs: seq<Run>, p: Prop)
    ensures LastHandle(AddProp(runs, p)) == p.handle
  {
  }

  /** Both passes see the same number of objects exactly when the first handle is not the reserved one. */
  lemma {:induction false} RunsAreChanges(props: seq<Prop>)
    ensures Changes(props, NO_HANDLE) == |Runs(props)| <==> props == [] || props[0].handle != NO_HANDLE
    ensures Changes(props, NO_HANDLE) <= |Runs(props)| <= Changes(props, NO_HANDLE) + 1
    decreases |props|
  {
    if props != [] {
      var before, p := props[..|props| - 1], props[|props| - 1];
      assert props == before + [p];
      RunsAreChanges(before);
      ChangesAtEnd(before, p, NO_HANDLE);
      if before != [] {
        LastRun(before);
      }
    }
  }

  // ----- what the grouping means

  function Flatten(runs: seq<Run>): seq<Prop> {
    if runs == [] then [] else Flatten(runs[..|runs| - 1]) + runs[|runs| - 1]
  }

  predicate OneHandle(run: Run) {
    forall i :: 0 <= i < |run| ==> run[i].handle == run[0].handle
  }

  ghost predicate Separate(runs: seq<Run>) {
    && (forall k :: 0 <= k < |runs| ==> OneHandle(runs[k]))
    && forall k :: 0 <= k < |runs| - 1 ==> runs[k][0].handle != runs[k + 1][0].handle
  }

  /** No property is lost, repeated or moved; each run belongs to one object, and neighbours to different ones. */
  lemma {:induction false} RunsPartition(props: seq<Prop>)
    ensures Flatten(Runs(props)) == props && Separate(Runs(props))
    decreases |props|
  {
    hide Separate, Flatten;
    if props == [] {
      NoRuns();
    } else {
      RunsPartition(props[..|props| - 1]);
      AddFlattened(Runs(props[..|props| - 1]), props[|props| - 1]);
      AddSeparate(Runs(props[..|props| - 1]), props[|props| - 1]);
    }
  }

  lemma NoRuns()
    ensures Flatten([]) == [] && Separate([])
  {
  }

  lemma AddFlattened(runs: seq<Run>, p: Prop)
    ensures Flatten(AddProp(runs, p)) == Flatten(runs) + [p]
  {
    var n, r := |runs|, AddProp(runs, p);
    if n > 0 && runs[n - 1][0].handle == p.handle {
      assert r[..n - 1] == runs[..n - 1];
    } else {
      assert r[..n] == runs;
    }
  }

  lemma AddSeparate(runs: seq<Run>, p: Prop)
    requires Separate(runs)
    ensures Separate(AddProp(runs, p))
  {
    var n, r := |runs|, AddProp(runs, p);
    if n > 0 && runs[n - 1][0].handle == p.handle {
      assert OneHandle(runs[n - 1]);
      assert r[n - 1] == runs[n - 1] + [p];
    } else {
      assert r[n] == [p];
    }
  }

  /** The last property of a run with the given code. */
  function Latest(run: seq<Prop>, code: int): Option<Value> {
    if run == [] then None
    else if run[|run| - 1].code == code then Some(run[|run| - 1].value)
    else Latest(run[..|run| - 1], code)
  }

  /** The last name that is there. */
  function LatestName(run: seq<Prop>): Option<Text> {
    if run == [] then None
    else if run[|run| - 1].code == FILE_NAME && run[|run| - 1].value.str.Some? then run[|run| - 1].value.str
    else LatestName(run[..|run| - 1])
  }

  predicate Core(code: int) {
    code == PARENT_OBJECT || code == OBJECT_FORMAT || code == OBJECT_SIZE || code == STORAGE_ID || code == FILE_NAME
  }

  function Others(run: seq<Prop>): seq<Prop> {
    if run == [] then []
    else Others(run[..|run| - 1]) + if Core(run[|run| - 1].code) then [] else [run[|run| - 1]]
  }

  function U32(v: Option<Value>): nat {
    if v.Some? then v.value.u32 else 0
  }

  /** The core fields of an object, by what its properties say. */
  ghost predicate Fields(o: CachedObject, handle: Handle, run: seq<Prop>, wide: bool) {
    && o.oid == handle
    && o.parent == U32(Latest(run, PARENT_OBJECT))
    && o.storage == U32(Latest(run, STORAGE_ID))
    && o.format == (var v := Latest(run, OBJECT_FORMAT); if v.Some? then v.value.u16 else 0)
    && o.size == (
         var v := Latest(run, OBJECT_SIZE);
         if v.None? then 0 else if wide then v.value.u64 % 0x1_0000_0000 else v.value.u32)
    && o.filename == LatestName(run)
    && o.mtpProps == Others(run)
  }

  lemma StoreFields(o: CachedObject, handle: Handle, run: seq<Prop>, p: Prop, wide: bool)
    requires Fields(o, handle, run, wide)
    ensures Fields(Store(o, p, wide), handle, run + [p], wide)
  {
    hide Latest, LatestName, Others;
    LatestGrows(run, p, PARENT_OBJECT);
    LatestGrows(run, p, STORAGE_ID);
    LatestGrows(run, p, OBJECT_FORMAT);
    LatestGrows(run, p, OBJECT_SIZE);
    OthersGrow(run, p);
  }

  lemma LatestGrows(run: seq<Prop>, p: Prop, code: int)
    ensures Latest(run + [p], code) == if p.code == code then Some(p.value) else Latest(run, code)
  {
    assert (run + [p])[..|run|] == run;
  }

  lemma OthersGrow(run: seq<Prop>, p: Prop)
    ensures LatestName(run + [p]) == if p.code == FILE_NAME && p.value.str.Some? then p.value.str else LatestName(run)
    ensures Others(run + [p]) == if Core(p.code) then Others(run) else Others(run) + [p]
  {
    assert (run + [p])[..|run|] == run;
  }

  /** Each object has its handle, the last value of every core field, and all its other properties in order. */
  lemma {:induction false} CollectIsLatest(run: Run, wide: bool)
    requires OneHandle(run)
    ensures Fields(Collect(run, wide), run[0].handle, run, wide)
    decreases |run|
  {
    hide Store, Fields;
    var init, last := run[..|run| - 1], run[|run| - 1];
    assert run == init + [last];
    if init == [] {
      NoFields(last.handle, wide);
      StoreFields(ZEROED.(oid := last.handle), last.handle, [], last, wide);
    } else {
      CollectIsLatest(init, wide);
      StoreFields(Collect(init, wide), run[0].handle, init, last, wide);
    }
  }

  lemma NoFields(handle: Handle, wide: bool)
    ensures Fields(ZEROED.(oid := handle), handle, [], wide)
  {
  }

  ghost predicate Marks(flags: set<Flag>, run: seq<Prop>) {
    && (ParentObjectLoaded in flags <==> exists p :: p in run && p.code == PARENT_OBJECT)
    && (StorageIdLoaded in flags <==> exists p :: p in run && p.code == STORAGE_ID)
    && (MtpPropListLoaded in flags <==> exists p :: p in run && !Core(p.code))
    && ObjectInfoLoaded !in flags
  }

  lemma StoreMarks(o: CachedObject, run: seq<Prop>, p: Prop, wide: bool)
    requires Marks(o.flags, run)
    ensures Marks(Store(o, p, wide).flags, run + [p])
  {
    var r := run + [p];
    assert forall q :: q in r <==> q in run || q == p;
    assert p in r;
  }

  /** The marks say which properties an object was given. */
  lemma {:induction false} CollectMarks(run: Run, wide: bool)
    ensures Marks(Collect(run, wide).flags, run)
    decreases |run|
  {
    hide Store, Marks;
    var init, last := run[..|run| - 1], run[|run| - 1];
    assert run == init + [last];
    if init == [] {
      NoMarks();
      StoreMarks(ZEROED.(oid := last.handle), [], last, wide);
    } else {
      CollectMarks(init, wide);
      StoreMarks(Collect(init, wide), init, last, wide);
    }
  }

  lemma NoMarks()
    ensures Marks({}, [])
  {
  }

  // ----- the finished objects, by the property codes of the MTP specification

  ghost predicate LastWith(run: seq<Prop>, code: int, i: nat) {
    i < |run| && run[i].code == code && forall j :: i < j < |run| ==> run[j].code != code
  }

  ghost predicate Lacking(run: seq<Prop>, code: int) {
    forall j :: 0 <= j < |run| ==> run[j].code != code
  }

  ghost predicate LastName(run: seq<Prop>, i: nat) {
    && i < |run| && run[i].code == 0xDC07 && run[i].value.str.Some?
    && forall j :: i < j < |run| && run[j].code == 0xDC07 ==> run[j].value.str.None?
  }

  ghost predicate Nameless(run: seq<Prop>) {
    forall j :: 0 <= j < |run| && run[j].code == 0xDC07 ==> run[j].value.str.None?
  }

  ghost predicate IsCore(code: int) {
    code == 0xDC01 || code == 0xDC02 || code == 0xDC04 || code == 0xDC07 || code == 0xDC0B
  }

  /** `others` are the properties at the positions `at`: all that have no field of their own, in order. */
  ghost predicate RestOf(others: seq<Prop>, run: seq<Prop>, at: seq<nat>) {
    && |at| == |others|
    && (forall i :: 0 <= i < |at| ==> at[i] < |run| && others[i] == run[at[i]] && !IsCore(run[at[i]].code))
    && (forall i, j :: 0 <= i < j < |at| ==> at[i] < at[j])
    && forall k: nat :: k < |run| && !IsCore(run[k].code) ==> k in at
  }

  /** The fields that come from one property each: its last value, or zero. */
  ghost predicate Numbers(o: CachedObject, run: seq<Prop>, wide: bool) {
    && (Lacking(run, 0xDC0B) ==> o.parent == 0)
    && (forall i: nat :: LastWith(run, 0xDC0B, i) ==> o.parent == run[i].value.u32)
    && (Lacking(run, 0xDC01) ==> o.storage == 0)
    && (forall i: nat :: LastWith(run, 0xDC01, i) ==> o.storage == run[i].value.u32)
    && (Lacking(run, 0xDC02) ==> o.format == 0)
    && (forall i: nat :: LastWith(run, 0xDC02, i) ==> o.format == run[i].value.u16)
    && (Lacking(run, 0xDC04) ==> o.size == 0)
    && forall i: nat :: LastWith(run, 0xDC04, i) ==>
         o.size == if wide then run[i].value.u64 % 0x1_0000_0000 else run[i].value.u32
  }

  /** The last name there is; without one, a made-up name, except for the last object of all. */
  ghost predicate NamedBy(name: Option<Text>, run: seq<Prop>, last: bool) {
    && (forall i: nat :: LastName(run, i) ==> name == run[i].value.str)
    && (Nameless(run) ==> name == if last then None else Some(Ascii("<null>")))
  }

  ghost predicate Marked(flags: set<Flag>, run: seq<Prop>) {
    && ObjectInfoLoaded in flags
    && (ParentObjectLoaded in flags <==> !Lacking(run, 0xDC0B))
    && (StorageIdLoaded in flags <==> !Lacking(run, 0xDC01))
    && (MtpPropListLoaded in flags <==> exists k :: 0 <= k < |run| && !IsCore(run[k].code))
  }

  /** What the object of a run holds, `last` being the last object of all. */
  ghost predicate Describes(o: CachedObject, run: Run, wide: bool, last: bool) {
    && o.oid == run[0].handle
    && Numbers(o, run, wide)
    && NamedBy(o.filename, run, last)
    && Marked(o.flags, run)
    && exists at :: RestOf(o.mtpProps, run, at)
  }

  lemma {:induction false} LatestIs(run: seq<Prop>, code: int, i: nat)
    ensures Lacking(run, code) ==> Latest(run, code) == None
    ensures LastWith(run, code, i) ==> Latest(run, code) == Some(run[i].value)
  {
    if run != [] && i < |run| - 1 {
      LatestIs(run[..|run| - 1], code, i);
    } else if run != [] && run[|run| - 1].code != code {
      LatestIs(run[..|run| - 1], code, 0);
    }
  }

  lemma {:induction false} LatestNameIs(run: seq<Prop>, i: nat)
    ensures Nameless(run) ==> LatestName(run) == None
    ensures LastName(run, i) ==> LatestName(run) == run[i].value.str
  {
    if run != [] {
      LatestNameIs(run[..|run| - 1], if i < |run| - 1 then i else 0);
    }
  }

  lemma {:induction false} OthersAre(run: seq<Prop>) returns (at: seq<nat>)
    ensures RestOf(Others(run), run, at)
  {
    hide RestOf;
    if run == [] {
      at := [];
      NoRest(Others(run), run, at);
    } else {
      var n := |run| - 1;
      at := OthersAre(run[..n]);
      RestMore(Others(run[..n]), run, at);
      if !IsCore(run[n].code) {
        at := at + [n];
      } else {
        assert Others(run) == Others(run[..n]);
      }
    }
  }

  lemma NoRest(others: seq<Prop>, run: seq<Prop>, at: seq<nat>)
    requires others == [] && run == [] && at == []
    ensures RestOf(others, run, at)
  {
  }

  lemma RestMore(others: seq<Prop>, run: seq<Prop>, at: seq<nat>)
    requires run != [] && RestOf(others, run[..|run| - 1], at)
    ensures var p := run[|run| - 1];
      if IsCore(p.code) then RestOf(others, run, at) else RestOf(others + [p], run, at + [|run| - 1])
  {
    var n := |run| - 1;
    var init, p, more := run[..n], run[n], at + [n];
    assert forall k: nat :: k < n ==> init[k] == run[k];
    assert forall k: nat :: k in at ==> k in more;
    assert more[|at|] == n;
  }

  lemma FieldsAreNumbers(o: CachedObject, handle: Handle, run: seq<Prop>, wide: bool)
    requires Fields(o, handle, run, wide)
    ensures Numbers(o, run, wide)
  {
    hide Latest, LatestName, Others, LastWith, Lacking;
    LatestOf(run, 0xDC0B);
    LatestOf(run, 0xDC01);
    LatestOf(run, 0xDC02);
    LatestOf(run, 0xDC04);
    forall i: nat, code | LastWith(run, code, i) ensures i < |run| { InRun(run, code, i); }
  }

  lemma InRun(run: seq<Prop>, code: int, i: nat)
    requires LastWith(run, code, i)
    ensures i < |run|
  {
  }

  lemma LatestOf(run: seq<Prop>, code: int)
    ensures Lacking(run, code) ==> Latest(run, code) == None
    ensures forall i: nat :: LastWith(run, code, i) ==> i < |run| && Latest(run, code) == Some(run[i].value)
  {
    LatestIs(run, code, 0);
    forall i: nat | LastWith(run, code, i) ensures i < |run| && Latest(run, code) == Some(run[i].value) {
      LatestIs(run, code, i);
    }
  }

  lemma MarksAre(flags: set<Flag>, run: seq<Prop>)
    requires Marks(flags, run)
    ensures Marked(flags + {ObjectInfoLoaded}, run)
  {
    assert forall p :: p in run <==> exists k :: 0 <= k < |run| && run[k] == p;
  }

  lemma ObjectDescribed(run: Run, wide: bool, last: bool, o: CachedObject)
    requires OneHandle(run)
    requires o == if last then Loaded(Collect(run, wide)) else Named(Loaded(Collect(run, wide)))
    ensures Describes(o, run, wide, last)
  {
    hide Collect, Marks, Marked, Numbers, RestOf, Latest, LatestName, Others, Nameless, LastName;
    var c := Collect(run, wide);
    CollectIsLatest(run, wide);
    CollectMarks(run, wide);
    MarksAre(c.flags, run);
    FieldsAreNumbers(c, run[0].handle, run, wide);
    NumbersKept(c, o, run, wide);
    var at := OthersAre(run);
    NameGiven(o.filename, run, last);
  }

  lemma NumbersKept(c: CachedObject, o: CachedObject, run: seq<Prop>, wide: bool)
    requires Numbers(c, run, wide)
    requires c.parent == o.parent && c.storage == o.storage && c.format == o.format && c.size == o.size
    ensures Numbers(o, run, wide)
  {
  }

  lemma {:induction false} SomeName(run: seq<Prop>)
    ensures LatestName(run) == None ==> Nameless(run)
  {
    if run != [] {
      SomeName(run[..|run| - 1]);
    }
  }

  lemma NameGiven(name: Option<Text>, run: seq<Prop>, last: bool)
    requires name ==
      if LatestName(run).None? then if last then None else Some(Ascii("<null>")) else LatestName(run)
    ensures NamedBy(name, run, last)
  {
    hide LatestName, Nameless, LastName;
    LatestNameIs(run, 0);
    SomeName(run);
    forall i: nat | LastName(run, i) ensures i < |run| && name == run[i].value.str {
      NameThere(run, i);
      LatestNameIs(run, i);
    }
  }

  lemma NameThere(run: seq<Prop>, i: nat)
    requires LastName(run, i)
    ensures i < |run| && run[i].value.str.Some?
  {
  }

  /** The cache after both passes: one object for each run, described by it alone. */
  ghost predicate Cached(val: seq<CachedObject>, runs: seq<Run>, wide: bool) {
    |val| == |runs| && forall k :: 0 <= k < |val| ==> Describes(val[k], runs[k], wide, k == |val| - 1)
  }

  lemma GroupedIsCached(val: seq<CachedObject>, props: seq<Prop>, wide: bool)
    requires Grouped(val, Runs(props), wide)
    ensures Cached(val, Runs(props), wide)
  {
    hide Collect, Loaded, Named, Describes;
    RunsPartition(props);
    forall k | 0 <= k < |val| ensures Describes(val[k], Runs(props)[k], wide, k == |val| - 1) {
      ObjectDescribed(Runs(props)[k], wide, k == |val| - 1, val[k]);
    }
  }
}
