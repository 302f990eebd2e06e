/** What the progress callback is told: one report a block, each the count of bytes so far, up to the total. */
module Reports {
  import opened TransferProgress
  import opened Usb
  import opened BulkRead
  import opened BulkWrite
  import opened PhaseProgress
  import DataPhase

  function Sum(blocks: seq<nat>): nat {
    if blocks == [] then 0 else blocks[0] + Sum(blocks[1..])
  }

  /** The counts after each of the blocks, from `count` on; reaching the total ends the reports. */
  function Counts(blocks: seq<nat>, count: nat, total: nat): seq<nat> {
    if blocks == [] then []
    else if count + blocks[0] >= total then [total]
    else [count + blocks[0]] + Counts(blocks[1..], count + blocks[0], total)
  }

  /** Every count below the total is reported as it is, the first to reach the total as the total. */
  lemma {:induction false} CountsAt(blocks: seq<nat>, count: nat, total: nat, k: nat)
    requires k < |blocks| && (k > 0 ==> count + Sum(blocks[..k]) < total)
    ensures k < |Counts(blocks, count, total)|
    ensures var c := count + Sum(blocks[..k + 1]);
      Counts(blocks, count, total)[k] == if c < total then c else total
    decreases k
  {
    assert blocks[..k + 1][1..] == blocks[1..][..k];
    if k > 0 {
      assert blocks[..k][1..] == blocks[1..][..k - 1];
      CountsAt(blocks[1..], count + blocks[0], total, k - 1);
    }
  }

  /** The last report is what was moved in all, or the total. The total is reported exactly if it was reached. */
  lemma {:induction false} CountsEnd(blocks: seq<nat>, count: nat, total: nat)
    requires blocks != []
    ensures var c, r := count + Sum(blocks), Counts(blocks, count, total);
      && r != [] && r[|r| - 1] == (if c < total then c else total)
      && (total in r <==> c >= total)
      && (c < total ==> |r| == |blocks|)
  {
    var c, r := count + blocks[0], Counts(blocks, count, total);
    if c < total {
      var rest := Counts(blocks[1..], c, total);
      if |blocks| > 1 {
        CountsEnd(blocks[1..], c, total);
        assert r[|r| - 1] == rest[|rest| - 1];
      }
      assert total in r <==> total in rest;
    }
  }

  /** From counters `p` to counters `q` by `blocks`: what the callback was told, and what is counted. */
  ghost predicate Shown(p: Progress, blocks: seq<nat>, q: Progress) {
    && q.reported == p.reported + (if p.active && p.callback then Counts(blocks, p.complete, p.total) else [])
    && q.total == p.total && q.callback == p.callback
    && (q.active <==> p.active && (blocks == [] || p.complete + Sum(blocks) < p.total))
  }

  ghost predicate Counted(p: Progress, moved: nat, q: Progress) {
    q.active ==> q.complete == p.complete + moved
  }

  /** The user's answers: a call goes on while they say so, and is cancelled at the one that does not. */
  ghost predicate Heeded(p: Progress, q: Progress, ret: Ret, cancels: set<nat>) {
    && |p.reported| <= |q.reported|
    && (forall i :: |p.reported| <= i < |q.reported| && i in cancels ==> ret == Cancelled && i == |q.reported| - 1)
    && (ret == Cancelled ==> |p.reported| < |q.reported| && |q.reported| - 1 in cancels)
  }

  ghost predicate Told(p: Progress, blocks: seq<nat>, q: Progress, ret: Ret, cancels: set<nat>) {
    Shown(p, blocks, q) && Heeded(p, q, ret, cancels) && (ret == OK ==> Counted(p, Sum(blocks), q))
  }

  lemma {:induction false} SumConcat(a: seq<nat>, b: seq<nat>)
    ensures Sum(a + b) == Sum(a) + Sum(b)
  {
    if a == [] {
      assert a + b == b;
    } else {
      assert (a + b)[1..] == a[1..] + b;
      SumConcat(a[1..], b);
    }
  }

  lemma {:induction false} CountsConcat(a: seq<nat>, b: seq<nat>, count: nat, total: nat)
    ensures Counts(a + b, count, total) == Counts(a, count, total)
      + if a == [] || count + Sum(a) < total then Counts(b, count + Sum(a), total) else []
  {
    if a == [] {
      assert a + b == b;
    } else {
      assert (a + b)[1..] == a[1..] + b;
      if count + a[0] < total {
        CountsConcat(a[1..], b, count + a[0], total);
      }
    }
  }

  lemma ShownOn(p: Progress, a: seq<nat>, q: Progress, b: seq<nat>, r: Progress)
    requires Shown(p, a, q) && Counted(p, Sum(a), q) && Shown(q, b, r)
    ensures Shown(p, a + b, r)
  {
    SumNone();
    hide Counts, Sum;
    SumConcat(a, b);
    CountsConcat(a, b, p.complete, p.total);
    if p.active && p.callback {
      Appended(p.reported, Counts(a, p.complete, p.total), Counts(b, q.complete, p.total));
    }
  }

  lemma SumNone()
    ensures Sum([]) == 0
  {
  }

  /** A block is counted, then reported. */
  lemma BlockShown(p: Progress, s: Step, n: nat)
    requires s == Read(n) || s == Write(n)
    ensures var q := Report(Advance(p, s)); Shown(p, [n], q) && Counted(p, Sum([n]), q)
  {
    assert Counts([n], p.complete, p.total) == if p.complete + n >= p.total then [p.total] else [p.complete + n];
    assert Sum([n]) == n;
  }

  // ----- writing

  /** The blocks that `n` bytes are written in, as far as `sent` bytes fill them. */
  function Blocks(n: nat, mp: PacketSize, sent: nat): seq<nat>
    decreases sent
  {
    var c := if n > 0x4000 then 0x4000 else if n > mp && n % mp != 0 then n - n % mp else n;
    if c == 0 || sent < c then [] else [c] + Blocks(n - c, mp, sent - c)
  }

  lemma {:induction false} PushShort(c: nat, env: Env, tick: nat)
    ensures !PushBlock(c, env, tick).ok ==> PushBlock(c, env, tick).sent < c
  {
    if c > 0 && Answer(env, tick).Sent? {
      PushShort(c - Accepted(Answer(env, tick).n, c), env, tick + 1);
    }
  }

  lemma TurnShown(n: nat, env: Env, st: State, t: BulkWrite.Turn)
    requires n > 0 && t == WriteTurn(n, env, st)
    ensures t.ret == OK || t.ret == Cancelled ==>
      t.sent == t.chunk && Shown(st.prog, [t.chunk], t.st.prog) && Counted(st.prog, Sum([t.chunk]), t.st.prog)
    ensures t.ret != OK && t.ret != Cancelled ==>
      t.ret == IOError && t.sent < t.chunk && Shown(st.prog, [], t.st.prog)
    ensures Heeded(st.prog, t.st.prog, t.ret, env.cancels)
  {
    hide PushBlock;
    var c := Chunk(n, env.mp);
    var b := PushBlock(c, env, st.tick);
    PushShort(c, env, st.tick);
    BlockShown(st.prog, Write(b.sent), b.sent);
  }

  lemma BlocksStep(n: nat, mp: PacketSize, sent: nat)
    requires n > 0
    ensures var c := Chunk(n, mp);
      Blocks(n, mp, sent) == if sent < c then [] else [c] + Blocks(n - c, mp, sent - c)
  {
  }

  lemma BlocksEnd(n: nat, mp: PacketSize)
    ensures Blocks(n, mp, 0) == []
  {
    if n > mp {
      ChunkPositive(n, mp);
    }
  }

  lemma NothingShown(p: Progress)
    ensures Shown(p, [], p) && Counted(p, 0, p)
  {
  }

  lemma CountedOn(p: Progress, a: nat, q: Progress, b: nat, r: Progress)
    requires Counted(p, a, q) && Counted(q, b, r) && (r.active ==> q.active)
    ensures Counted(p, a + b, r)
  {
  }

  lemma HeededOn(p: Progress, q: Progress, r: Progress, ret: Ret, cancels: set<nat>)
    requires Heeded(p, q, OK, cancels) && Heeded(q, r, ret, cancels)
    ensures Heeded(p, r, ret, cancels)
  {
  }

  lemma ActiveBefore(p: Progress, blocks: seq<nat>, q: Progress)
    requires Shown(p, blocks, q)
    ensures q.active ==> p.active
  {
  }

  /** A write call: one report a block, whatever becomes of the call. */
  lemma {:induction false} LoopShown(n: nat, env: Env, st: State, o: Outcome)
    requires o == WriteLoop(n, env, st)
    ensures Shown(st.prog, Blocks(n, env.mp, o.sent), o.st.prog)
    ensures o.ret == OK ==> Sum(Blocks(n, env.mp, o.sent)) == o.sent && Counted(st.prog, o.sent, o.st.prog)
    ensures o.ret == OK || o.ret == Cancelled || o.ret == IOError
    ensures Heeded(st.prog, o.st.prog, o.ret, env.cancels)
  {
    hide WriteTurn, Shown, Counted, Blocks;
    BlocksEnd(0, env.mp);
    NothingShown(st.prog);
    if n > 0 {
      hide Heeded;
      var t := WriteTurn(n, env, st);
      var rest := WriteLoop(n - t.sent, env, t.st);
      LoopStep(n, env, st, t, o, rest);
      TurnShown(n, env, st, t);
      BlocksStep(n, env.mp, o.sent);
      BlocksEnd(n - t.chunk, env.mp);
      assert [t.chunk] + [] == [t.chunk];
      if t.more {
        LoopShown(n - t.sent, env, t.st, rest);
        MoreShown(n, env, st, t, rest, o);
      }
    }
  }

  lemma MoreShown(n: nat, env: Env, st: State, t: BulkWrite.Turn, rest: Outcome, o: Outcome)
    requires n > 0 && t.more && t.sent == t.chunk == Chunk(n, env.mp)
    requires o.ret == rest.ret && o.sent == t.sent + rest.sent && o.st == rest.st
    requires Shown(st.prog, [t.chunk], t.st.prog) && Counted(st.prog, Sum([t.chunk]), t.st.prog)
    requires Heeded(st.prog, t.st.prog, OK, env.cancels)
    requires Shown(t.st.prog, Blocks(n - t.sent, env.mp, rest.sent), rest.st.prog)
    requires rest.ret == OK ==>
      Sum(Blocks(n - t.sent, env.mp, rest.sent)) == rest.sent && Counted(t.st.prog, rest.sent, rest.st.prog)
    requires Heeded(t.st.prog, rest.st.prog, rest.ret, env.cancels)
    ensures Shown(st.prog, Blocks(n, env.mp, o.sent), o.st.prog)
    ensures o.ret == OK ==> Sum(Blocks(n, env.mp, o.sent)) == o.sent && Counted(st.prog, o.sent, o.st.prog)
    ensures Heeded(st.prog, o.st.prog, o.ret, env.cancels)
  {
    hide Shown, Counted, Blocks, Heeded;
    var blocks := Blocks(n - t.sent, env.mp, rest.sent);
    BlocksStep(n, env.mp, o.sent);
    ShownOn(st.prog, [t.chunk], t.st.prog, blocks, rest.st.prog);
    ActiveBefore(t.st.prog, blocks, rest.st.prog);
    HeededOn(st.prog, t.st.prog, rest.st.prog, rest.ret, env.cancels);
    SumConcat([t.chunk], blocks);
    assert Sum([t.chunk]) == t.chunk;
    if rest.ret == OK {
      CountedOn(st.prog, t.chunk, t.st.prog, rest.sent, rest.st.prog);
    }
  }

  lemma WriteShown(n: nat, env: Env, st: State, w: Written)
    requires w == WriteFunc(n, env, st)
    ensures Shown(st.prog, Blocks(n, env.mp, w.sent), w.st.prog)
    ensures w.ret == OK ==> Sum(Blocks(n, env.mp, w.sent)) == w.sent && Counted(st.prog, w.sent, w.st.prog)
    ensures w.ret == OK || w.ret == Cancelled || w.ret == IOError
    ensures Heeded(st.prog, w.st.prog, w.ret, env.cancels)
  {
    LoopShown(n, env, st, WriteLoop(n, env, st));
  }

  lemma WriteTold(n: nat, env: Env, st: State, w: Written)
    requires w == WriteFunc(n, env, st)
    ensures Told(st.prog, Blocks(n, env.mp, w.sent), w.st.prog, w.ret, env.cancels)
    ensures w.ret == OK ==> Sum(Blocks(n, env.mp, w.sent)) == w.sent
  {
    WriteShown(n, env, st, w);
  }

  // ----- reading

  /** What is asked for when `left` bytes are still to be read; `second` alternates. */
  function Wanted(dev: Device, left: nat, second: bool, readzero: bool): nat {
    if left < 0x4000 then left + if readzero && dev.noZeroReads && left % dev.mp == 0 then 1 else 0
    else if !dev.iriver then 0x4000
    else if dev.mp == 0x400 then if second then 0x400 else 0x3c00
    else if second then 0x200 else 0x3e00
  }

  /** The blocks that a call for `left` bytes gets when `got` bytes come. */
  function Delivered(dev: Device, left: nat, second: bool, readzero: bool, got: nat): seq<nat> {
    if left == 0 then []
    else
      var w := Wanted(dev, left, second, readzero);
      if got < w || left < w then [got] else [w] + Delivered(dev, left - w, !second, readzero, got - w)
  }

  /** Which of the two block sizes is next, as long as whole blocks are left. */
  ghost predicate Alternating(dev: Device, size: nat, cur: nat, prev: nat, second: bool) {
    dev.iriver && cur < size && size - cur >= CONTEXT_BLOCK_SIZE ==> second == (cur > 0 && prev == Block1(dev))
  }

  lemma WantedIs(dev: Device, size: nat, cur: nat, prev: nat, readzero: bool, second: bool)
    requires cur < size && Steady(dev, size, cur, prev) && Alternating(dev, size, cur, prev, second)
    ensures var a := NextRequest(dev, size, cur, prev, readzero);
      && a.toread == Wanted(dev, size - cur, second, readzero)
      && (cur + a.toread <= size ==>
            Steady(dev, size, cur + a.toread, a.toread) && Alternating(dev, size, cur + a.toread, a.toread, !second))
  {
  }

  lemma TransferStatus(queue: seq<Packet>, len: nat, mp: PacketSize)
    ensures var s := BulkTransfer(queue, len, mp).status; s == OK || s == Timeout || s == IOError
  {
    if len > 0 && queue != [] && mp <= |queue[0]| < len {
      TransferStatus(queue[1..], len - |queue[0]|, mp);
    }
  }

  lemma NothingDelivered(dev: Device, second: bool, readzero: bool, got: nat)
    ensures Delivered(dev, 0, second, readzero, got) == []
  {
  }

  lemma DeliveredStep(dev: Device, left: nat, second: bool, readzero: bool, n: nat, more: bool, got: nat)
    requires left > 0 && n <= left
    requires var w := Wanted(dev, left, second, readzero); if more then n == w else n < w && got == n
    requires n <= got
    ensures Delivered(dev, left, second, readzero, got) ==
      [n] + if more then Delivered(dev, left - n, !second, readzero, got - n) else []
  {
  }

  /** Reads count only while the callback is on, and reaching the total sets the count to it. */
  ghost predicate Settled(p: Progress, q: Progress) {
    (!p.active ==> q == p) && (p.active && !q.active ==> q.complete == p.total) && q.total == p.total
  }

  lemma ReadTurnShown(dev: Device, a: Asked, queue: seq<Packet>, prog: Progress, t: BulkRead.Turn)
    requires t == ReadTurn(dev, a, queue, prog)
    ensures t.ret == OK || t.ret == Cancelled ==>
      Shown(prog, [|t.data|], t.prog) && Counted(prog, Sum([|t.data|]), t.prog)
    ensures t.ret != OK && t.ret != Cancelled ==> t.data == [] && t.prog == prog
    ensures t.ret == OK && !t.more ==> |t.data| < a.toread
    ensures Settled(prog, t.prog)
    ensures Heeded(prog, t.prog, t.ret, dev.cancels)
  {
    hide BulkTransfer;
    TransferStatus(queue, a.toread, dev.mp);
    BlockShown(prog, Read(|t.data|), |t.data|);
  }

  /** A read call: one report for each block that came. */
  lemma {:induction false} ReadLoopShown(dev: Device, size: nat, cur: nat, prev: nat, readzero: bool,
    queue: seq<Packet>, prog: Progress, second: bool, e: ReadEnd)
    returns (blocks: seq<nat>)
    requires cur <= size && Steady(dev, size, cur, prev) && Alternating(dev, size, cur, prev, second)
    requires e == ReadLoop(dev, DeviceReader(dev), size, cur, prev, readzero, queue, prog)
    ensures Shown(prog, blocks, e.prog) && Sum(blocks) == |e.got| && Counted(prog, |e.got|, e.prog)
    ensures e.ret == OK ==> blocks == Delivered(dev, size - cur, second, readzero, |e.got|)
    ensures Heeded(prog, e.prog, e.ret, dev.cancels) && Settled(prog, e.prog)
    decreases size - cur
  {
    hide ReadTurn, Shown, Counted, Wanted, NextRequest, Delivered;
    NothingDelivered(dev, second, readzero, |e.got|);
    blocks := [];
    NothingShown(prog);
    if cur < size {
      hide Heeded;
      var a := NextRequest(dev, size, cur, prev, readzero);
      var t := ReadTurn(dev, a, queue, prog);
      WantedIs(dev, size, cur, prev, readzero, second);
      ReadTurnShown(dev, a, queue, prog, t);
      if t.ret == OK || t.ret == Cancelled {
        blocks := [|t.data|];
      }
      if t.more {
        var e' := ReadLoop(dev, DeviceReader(dev), size, cur + |t.data|, a.toread, readzero, t.queue, t.prog);
        var rest := ReadLoopShown(dev, size, cur + |t.data|, a.toread, readzero, t.queue, t.prog, !second, e');
        ShownOn(prog, blocks, t.prog, rest, e.prog);
        ActiveBefore(t.prog, rest, e.prog);
        CountedOn(prog, |t.data|, t.prog, |e'.got|, e.prog);
        HeededOn(prog, t.prog, e.prog, e.ret, dev.cancels);
        SumConcat(blocks, rest);
        DeliveredStep(dev, size - cur, second, readzero, |t.data|, true, |e.got|);
        blocks := blocks + rest;
      } else if t.ret == OK {
        DeliveredStep(dev, size - cur, second, readzero, |t.data|, false, |e.got|);
      }
    }
  }

  lemma ReadShown(dev: Device, size: nat, readzero: bool, queue: seq<Packet>, prog: Progress, e: ReadEnd)
    returns (blocks: seq<nat>)
    requires e == ReadFunc(dev, size, readzero, queue, prog)
    ensures Shown(prog, blocks, e.prog) && Sum(blocks) == |e.got| && Counted(prog, |e.got|, e.prog)
    ensures e.ret == OK ==> blocks == Delivered(dev, size, false, readzero, |e.got|)
    ensures Heeded(prog, e.prog, e.ret, dev.cancels)
    ensures Settled(prog, e.prog)
  {
    var whole := ReadLoop(dev, DeviceReader(dev), size, 0, 0, readzero, queue, prog);
    blocks := ReadLoopShown(dev, size, 0, 0, readzero, queue, prog, false, whole);
  }

  lemma ReadTold(dev: Device, size: nat, readzero: bool, queue: seq<Packet>, prog: Progress, e: ReadEnd)
    returns (blocks: seq<nat>)
    requires e == ReadFunc(dev, size, readzero, queue, prog)
    ensures Told(prog, blocks, e.prog, e.ret, dev.cancels) && Sum(blocks) == |e.got|
    ensures e.ret == OK ==> blocks == Delivered(dev, size, false, readzero, |e.got|)
    ensures Settled(prog, e.prog)
  {
    blocks := ReadShown(dev, size, readzero, queue, prog, e);
  }

  // ----- any sequence of calls

  /** What a call came to, and the blocks it moved. */
  function Result(call: Call, env: Env, dev: Device, stage: Stage): Ret {
    match call
    case Writes(size) => WriteFunc(size, env, State(stage.tick, stage.prog)).ret
    case Reads(size, readzero) => ReadFunc(dev, size, readzero, stage.queue, stage.prog).ret
  }

  function Moved(call: Call, env: Env, dev: Device, stage: Stage): nat {
    match call
    case Writes(size) => WriteFunc(size, env, State(stage.tick, stage.prog)).sent
    case Reads(size, readzero) => |ReadFunc(dev, size, readzero, stage.queue, stage.prog).got|
  }

  function CallBlocks(call: Call, env: Env, dev: Device, moved: nat): seq<nat> {
    match call
    case Writes(size) => Blocks(size, env.mp, moved)
    case Reads(size, readzero) => Delivered(dev, size, false, readzero, moved)
  }

  ghost predicate AllSucceed(calls: seq<Call>, env: Env, dev: Device, stage: Stage)
    decreases |calls|
  {
    calls == [] ||
    (Result(calls[0], env, dev, stage) == OK && AllSucceed(calls[1..], env, dev, Perform(calls[0], env, dev, stage)))
  }

  function AllMoved(calls: seq<Call>, env: Env, dev: Device, stage: Stage): nat
    decreases |calls|
  {
    if calls == [] then 0
    else Moved(calls[0], env, dev, stage) + AllMoved(calls[1..], env, dev, Perform(calls[0], env, dev, stage))
  }

  function AllBlocks(calls: seq<Call>, env: Env, dev: Device, stage: Stage): seq<nat>
    decreases |calls|
  {
    if calls == [] then []
    else
      var first := CallBlocks(calls[0], env, dev, Moved(calls[0], env, dev, stage));
      first + AllBlocks(calls[1..], env, dev, Perform(calls[0], env, dev, stage))
  }

  lemma CallShown(call: Call, env: Env, dev: Device, stage: Stage)
    requires Result(call, env, dev, stage) == OK
    ensures var n := Moved(call, env, dev, stage);
      var q := Perform(call, env, dev, stage).prog;
      && Shown(stage.prog, CallBlocks(call, env, dev, n), q) && Counted(stage.prog, n, q)
      && Sum(CallBlocks(call, env, dev, n)) == n
  {
    hide WriteFunc, ReadFunc, Shown, Counted, Heeded;
    match call
    case Writes(size) =>
      var st := State(stage.tick, stage.prog);
      WriteShown(size, env, st, WriteFunc(size, env, st));
    case Reads(size, readzero) =>
      var e := ReadFunc(dev, size, readzero, stage.queue, stage.prog);
      var blocks := ReadShown(dev, size, readzero, stage.queue, stage.prog, e);
  }

  /** Over calls that succeed every block adds its report, across the calls. */
  lemma {:induction false} CallsShown(calls: seq<Call>, env: Env, dev: Device, stage: Stage)
    requires AllSucceed(calls, env, dev, stage)
    ensures var q := PerformAll(calls, env, dev, stage).prog;
      Shown(stage.prog, AllBlocks(calls, env, dev, stage), q) &&
        Counted(stage.prog, AllMoved(calls, env, dev, stage), q)
    ensures Sum(AllBlocks(calls, env, dev, stage)) == AllMoved(calls, env, dev, stage)
    decreases |calls|
  {
    hide Shown, Counted, Perform, Result, Moved, CallBlocks;
    SumNone();
    NothingShown(stage.prog);
    if calls != [] {
      var next := Perform(calls[0], env, dev, stage);
      var q := PerformAll(calls, env, dev, stage).prog;
      var first, rest := CallBlocks(calls[0], env, dev, Moved(calls[0], env, dev, stage)),
        AllBlocks(calls[1..], env, dev, next);
      CallShown(calls[0], env, dev, stage);
      CallsShown(calls[1..], env, dev, next);
      ShownOn(stage.prog, first, next.prog, rest, q);
      ActiveBefore(next.prog, rest, q);
      CountedOn(stage.prog, Sum(first), next.prog, Sum(rest), q);
      SumConcat(first, rest);
    }
  }

  /**
   A transfer of any number of calls that all succeed and moved anything at all: the last report is the
   count of all bytes, or the total, and the total is reported exactly if the count reached it.
   */
  lemma CallsReported(calls: seq<Call>, env: Env, dev: Device, stage: Stage)
    requires AllSucceed(calls, env, dev, stage) && AllMoved(calls, env, dev, stage) > 0
    requires stage.prog.active && stage.prog.callback && stage.prog.total !in stage.prog.reported
    ensures var count := stage.prog.complete + AllMoved(calls, env, dev, stage);
      var total := stage.prog.total;
      var reports := PerformAll(calls, env, dev, stage).prog.reported;
      && stage.prog.reported < reports
      && reports[|reports| - 1] == (if count < total then count else total)
      && (total in reports <==> count >= total)
  {
    hide AllSucceed, AllMoved, AllBlocks, PerformAll;
    CallsShown(calls, env, dev, stage);
    ShownEnd(stage.prog, AllBlocks(calls, env, dev, stage), PerformAll(calls, env, dev, stage).prog);
  }

  // ----- the data phase out

  lemma {:induction false} RestShown(left: nat, at: nat, maxLong: nat, env: Env, st: State, p: DataPhase.Phase)
    returns (blocks: seq<nat>)
    requires maxLong > 0 && p == DataPhase.SendRest(left, at, maxLong, env, st) && p.ret == OK
    ensures Shown(st.prog, blocks, p.st.prog) && Sum(blocks) == p.sent
    decreases left
  {
    hide WriteFunc, Shown, Counted, Heeded;
    blocks := [];
    SumNone();
    NothingShown(st.prog);
    if left > 0 {
      var n := if left > maxLong then maxLong else left;
      var w := WriteFunc(n, env, st);
      WriteShown(n, env, st, w);
      var q := DataPhase.SendRest(left - w.sent, at + w.sent, maxLong, env, w.st);
      var rest := RestShown(left - w.sent, at + w.sent, maxLong, env, w.st, q);
      blocks := Blocks(n, env.mp, w.sent);
      ShownOn(st.prog, blocks, w.st.prog, rest, p.st.prog);
      SumConcat(blocks, rest);
      blocks := blocks + rest;
    }
  }

  /**
   A data phase that reports success: the last count the user saw is what got out, header included, so
   the user saw the total exactly if everything did.
   */
  lemma SendDataReported(size: nat, split: bool, maxLong: nat, env: Env, base: nat, st: State,
    d: DataPhase.DataPhase)
    requires Sane(env.mp) && maxLong > 0
    requires d == DataPhase.SendData(size, split, maxLong, env, base, st) && d.ret == OK
    requires st.prog.active && st.prog.callback && st.prog.reported == []
    ensures var r := d.st.prog.reported;
      && r != [] && r[|r| - 1] == d.first + d.rest
      && (12 + size in r <==> d.first + d.rest == 12 + size)
  {
    hide WriteFunc, DataPhase.SendRest, Shown, Counted, Heeded;
    var n := DataPhase.InlineLen(size, split);
    var st0 := DataPhase.Announced(size, st);
    var w := WriteFunc(HDR_LEN + n, env, st0);
    WriteShown(HDR_LEN + n, env, st0, w);
    var blocks := Blocks(HDR_LEN + n, env.mp, w.sent);
    DataPhase.OnlyFirstCutShort(size, split, maxLong, env, base, st, d);
    if size > n {
      var p := DataPhase.SendRest(size - n, base + w.sent, maxLong, env, w.st);
      var rest := RestShown(size - n, base + w.sent, maxLong, env, w.st, p);
      ShownOn(st0.prog, blocks, w.st.prog, rest, p.st.prog);
      SumConcat(blocks, rest);
      blocks := blocks + rest;
    }
    ShownEnd(st0.prog, blocks, d.st.prog);
  }

  lemma ShownEnd(p: Progress, blocks: seq<nat>, q: Progress)
    requires Shown(p, blocks, q) && Sum(blocks) > 0
    requires p.active && p.callback && p.total !in p.reported
    ensures var c := p.complete + Sum(blocks);
      && p.reported < q.reported
      && q.reported[|q.reported| - 1] == (if c < p.total then c else p.total)
      && (p.total in q.reported <==> c >= p.total)
  {
    hide Counts;
    SumNone();
    CountsEnd(blocks, p.complete, p.total);
    var more := Counts(blocks, p.complete, p.total);
    assert q.reported[|q.reported| - 1] == more[|more| - 1];
  }
}
