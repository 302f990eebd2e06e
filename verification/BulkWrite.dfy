/** What one call that writes to the bulk endpoint does, as a function of the USB layer's behaviour. */
module BulkWrite {
  import opened TransferProgress
  import opened Usb

  /** The answer of the USB layer to one write: success with a number of bytes, or an error. */
  datatype WriteResult = Sent(n: nat) | Failed

  /**
   `sched` are the USB layer's answers to the writes of a run; what lies beyond is accepted in full.
   The user cancels at the progress reports in `cancels`.
   */
  datatype Env = Env(mp: PacketSize, sched: seq<WriteResult>, cancels: set<nat>)

  function Answer(env: Env, tick: nat): WriteResult {
    if tick < |env.sched| then env.sched[tick] else Sent(CONTEXT_BLOCK_SIZE)
  }

  /** Writes done so far, and the counters. */
  datatype State = State(tick: nat, prog: Progress)

  /** A successful write makes progress and never exceeds the request. */
  function Accepted(n: nat, len: nat): (k: nat)
    requires len > 0
    ensures 1 <= k <= len
  {
    if n < 1 then 1 else if n > len then len else n
  }

  /** The size of the next block when `n` bytes are left. */
  function Chunk(n: nat, mp: nat): (c: nat)
    requires n > 0 && mp > 0
    ensures 0 < c <= n && c <= CONTEXT_BLOCK_SIZE
  {
    if n > CONTEXT_BLOCK_SIZE then CONTEXT_BLOCK_SIZE
    else if n > mp && n % mp != 0 then ChunkPositive(n, mp); n - n % mp
    else n
  }

  lemma ChunkPositive(n: nat, mp: nat)
    requires n > mp > 0
    ensures n % mp < n
  {
  }

  /** The writes of one block: how much got out, and how much the last write took. */
  datatype Block = Block(ok: bool, sent: nat, last: nat, tick: nat)

  function PushBlock(c: nat, env: Env, tick: nat): (b: Block)
    ensures b.sent <= c && (b.ok ==> b.sent == c) && b.last <= c
  {
    if c == 0 then Block(true, 0, 0, tick)
    else
      match Answer(env, tick)
      case Failed => Block(false, 0, 0, tick + 1)
      case Sent(n) =>
        var k := Accepted(n, c);
        if k == c then Block(true, c, k, tick + 1)
        else
          var b := PushBlock(c - k, env, tick + 1);
          b.(sent := k + b.sent)
  }

  /** `sent` bytes got out; `chunk` is the size of the last block asked for. */
  datatype Outcome = Outcome(ret: Ret, sent: nat, chunk: nat, st: State)

  /** One block: the handler is asked for `chunk` bytes; `more` if the loop goes on. */
  datatype Turn = Turn(ret: Ret, sent: nat, more: bool, chunk: nat, st: State)

  function WriteTurn(n: nat, env: Env, st: State): (t: Turn)
    requires n > 0
    ensures t.chunk == Chunk(n, env.mp) && t.sent <= t.chunk
    ensures t.more ==> t.ret == OK
    ensures t.ret == OK ==> t.sent == t.chunk
  {
    var c := Chunk(n, env.mp);
    var b := PushBlock(c, env, st.tick);
    var p := Advance(st.prog, Write(b.sent));
    if !b.ok then Turn(IOError, b.sent, false, c, State(b.tick, p))
    else if p.active && p.callback && |p.reported| in env.cancels then
      Turn(Cancelled, c, false, c, State(b.tick, Report(p)))
    else Turn(OK, c, b.last == c, c, State(b.tick, Report(p)))
  }

  function WriteLoop(n: nat, env: Env, st: State): (o: Outcome)
    ensures o.sent <= n
  {
    if n == 0 then Outcome(OK, 0, 0, st)
    else
      var t := WriteTurn(n, env, st);
      if !t.more then Outcome(t.ret, t.sent, t.chunk, t.st)
      else
        var o := WriteLoop(n - t.sent, env, t.st);
        Outcome(o.ret, t.sent + o.sent, if n == t.sent then t.chunk else o.chunk, o.st)
  }

  /** One unrolling of the loop. */
  lemma LoopStep(n: nat, env: Env, st: State, t: Turn, o: Outcome, rest: Outcome)
    requires n > 0 && t == WriteTurn(n, env, st) && o == WriteLoop(n, env, st)
    requires rest == WriteLoop(n - t.sent, env, t.st)
    ensures !t.more ==> o == Outcome(t.ret, t.sent, t.chunk, t.st)
    ensures t.more ==> Continues(o, t.sent, t.chunk, rest, n == t.sent)
  {
  }

  /** `o` is `sent` bytes, the last block being `chunk`, and then `rest`. */
  ghost predicate Continues(o: Outcome, sent: nat, chunk: nat, rest: Outcome, done: bool) {
    o.ret == rest.ret && o.sent == sent + rest.sent && o.st == rest.st && o.chunk == if done then chunk else rest.chunk
  }

  /** The loop, then the zero-length write that ends a transfer in a whole number of packets. */
  datatype Written = Written(ret: Ret, sent: nat, zero: bool, chunk: nat, st: State)

  function WriteFunc(n: nat, env: Env, st: State): (w: Written)
    requires env.mp > 0
    ensures w.sent <= n
  {
    var o := WriteLoop(n, env, st);
    if o.ret != OK then Written(o.ret, o.sent, false, o.chunk, o.st)
    else if o.st.prog.complete >= o.st.prog.total && o.chunk % env.mp == 0 then
      Written(
        if Answer(env, o.st.tick).Failed? then IOError else OK, o.sent, true, o.chunk, o.st.(tick := o.st.tick + 1))
    else Written(OK, o.sent, false, o.chunk, o.st)
  }

  // ----- errors

  /** The USB layer answers one of the writes in between with an error. */
  ghost predicate Fails(env: Env, from: nat, to: nat) {
    exists i: nat :: from <= i < to && i < |env.sched| && env.sched[i] == Failed
  }

  lemma {:induction false} BlockFails(c: nat, env: Env, tick: nat)
    ensures var b := PushBlock(c, env, tick);
      && tick <= b.tick && (!b.ok <==> Fails(env, tick, b.tick))
      && (!b.ok ==> tick < b.tick <= |env.sched| && env.sched[b.tick - 1] == Failed)
  {
    if c > 0 && Answer(env, tick).Sent? {
      var k := Accepted(Answer(env, tick).n, c);
      BlockFails(c - k, env, tick + 1);
    }
  }

  lemma {:induction false} LoopFails(n: nat, env: Env, st: State)
    ensures var o := WriteLoop(n, env, st);
      && st.tick <= o.st.tick && (o.ret == IOError <==> Fails(env, st.tick, o.st.tick))
      && (o.ret == IOError || o.ret == Cancelled || (o.ret == OK && (n > 0 ==> o.sent > 0)))
  {
    hide PushBlock, Fails, Report, Advance;
    if n > 0 {
      var t := WriteTurn(n, env, st);
      BlockFails(Chunk(n, env.mp), env, st.tick);
      if t.more {
        LoopFails(n - t.sent, env, t.st);
        FailsOn(env, st.tick, t.st.tick, WriteLoop(n - t.sent, env, t.st).st.tick);
      }
    } else {
      NoFails(env, st.tick);
    }
  }

  lemma NoFails(env: Env, tick: nat)
    ensures !Fails(env, tick, tick)
  {
  }

  lemma FailsOn(env: Env, a: nat, b: nat, c: nat)
    requires a <= b <= c
    ensures Fails(env, a, c) <==> Fails(env, a, b) || Fails(env, b, c)
  {
  }

  /** A write call ends with an I/O error exactly if the USB layer reported one. */
  lemma WriteFails(n: nat, env: Env, st: State)
    ensures var w := WriteFunc(n, env, st);
      && st.tick <= w.st.tick && (w.ret == IOError <==> Fails(env, st.tick, w.st.tick))
      && (w.ret == IOError || w.ret == Cancelled || (w.ret == OK && (n > 0 ==> w.sent > 0)))
  {
    LoopFails(n, env, st);
    var o := WriteLoop(n, env, st);
    FailsOn(env, st.tick, o.st.tick, o.st.tick + 1);
  }

  // ----- what gets out

  lemma TurnKeeps(inv: Progress -> bool, n: nat, env: Env, st: State)
    requires Kept(inv) && inv(st.prog) && n > 0
    ensures inv(WriteTurn(n, env, st).st.prog)
  {
    hide PushBlock, Report, Advance;
    var b := PushBlock(Chunk(n, env.mp), env, st.tick);
    assert inv(Advance(st.prog, Write(b.sent))) && inv(Report(Advance(st.prog, Write(b.sent))));
  }

  lemma {:induction false} LoopKeeps(inv: Progress -> bool, n: nat, env: Env, st: State)
    requires Kept(inv) && inv(st.prog)
    ensures inv(WriteLoop(n, env, st).st.prog)
  {
    hide WriteTurn, Kept;
    if n > 0 {
      var t := WriteTurn(n, env, st);
      TurnKeeps(inv, n, env, st);
      if t.more {
        LoopKeeps(inv, n - t.sent, env, t.st);
      }
    }
  }

  /** A write call keeps the callback discipline. */
  lemma WriteFuncOrderly(n: nat, env: Env, st: State)
    requires Orderly(st.prog)
    ensures Disciplined(st.prog, WriteFunc(n, env, st).st.prog)
  {
    DisciplineKept(st.prog);
    LoopKeeps(Discipline(st.prog), n, env, st);
    assert Discipline(st.prog)(WriteLoop(n, env, st).st.prog);
  }

  /** A call that succeeds sent everything, or stopped after some full blocks because of a short write. */
  lemma {:induction false} LoopProgress(n: nat, env: Env, st: State)
    requires Sane(env.mp) && n > 0
    requires WriteLoop(n, env, st).ret == OK
    ensures var o := WriteLoop(n, env, st);
      && 0 < o.sent <= n && o.chunk > 0
      && (o.sent < n ==> o.sent % env.mp == 0 && n - o.sent > 0)
      && (o.sent == n ==> (o.chunk % env.mp == 0 <==> n % env.mp == 0))
  {
    var c := Chunk(n, env.mp);
    var b := PushBlock(c, env, st.tick);
    ChunkWhole(n, env.mp);
    var p := Advance(st.prog, Write(b.sent));
    if b.last == c && n > c {
      LoopProgress(n - c, env, State(b.tick, Report(p)));
      SubMod(n, c, env.mp);
      AddMod(c, WriteLoop(n - c, env, State(b.tick, Report(p))).sent, env.mp);
    }
  }

  /** Every block but the final one is a whole number of packets. */
  lemma ChunkWhole(n: nat, mp: nat)
    requires Sane(mp) && n > 0
    ensures Chunk(n, mp) < n ==> Chunk(n, mp) % mp == 0
  {
    if n <= CONTEXT_BLOCK_SIZE && n > mp && n % mp != 0 {
      SubRemainder(n, mp);
    }
  }

  /** The header write goes out as a single block, so no short write can cut it off. */
  predicate OneBlock(wlen: nat, mp: nat)
    requires mp > 0
  {
    wlen <= mp || wlen % mp == 0
  }

  lemma TurnCounts(n: nat, env: Env, st: State)
    requires n > 0 && st.prog.complete + n <= st.prog.total
    ensures var t := WriteTurn(n, env, st);
      t.st.prog.total == st.prog.total && t.st.prog.complete == st.prog.complete + t.sent
  {
    hide PushBlock;
  }

  /** Within the announced total the counter is exactly the number of bytes that got out. */
  lemma {:induction false} LoopCounts(n: nat, env: Env, st: State)
    requires env.mp > 0 && st.prog.complete + n <= st.prog.total
    ensures var o := WriteLoop(n, env, st);
      o.st.prog.total == st.prog.total && o.st.prog.complete == st.prog.complete + o.sent
  {
    hide WriteTurn;
    if n > 0 {
      var t := WriteTurn(n, env, st);
      TurnCounts(n, env, st);
      if t.more {
        LoopCounts(n - t.sent, env, t.st);
      }
    }
  }

  /** One call inside a phase: a zero-length write goes out exactly when the phase ends on a packet boundary. */
  lemma CallInPhase(n: nat, env: Env, st: State)
    requires Sane(env.mp) && n > 0 && st.prog.complete + n <= st.prog.total
    requires WriteFunc(n, env, st).ret == OK
    ensures var w := WriteFunc(n, env, st);
      && 0 < w.sent <= n
      && w.st.prog.total == st.prog.total && w.st.prog.complete == st.prog.complete + w.sent
      && (w.sent < n ==> w.sent % env.mp == 0)
      && (w.zero <==> w.sent == n && st.prog.complete + n == st.prog.total && n % env.mp == 0)
  {
    LoopCounts(n, env, st);
    LoopProgress(n, env, st);
  }

  /** A call that fits in one block sends it all or reports an error. */
  lemma OneBlockComplete(n: nat, env: Env, st: State)
    requires env.mp > 0 && 0 < n <= CONTEXT_BLOCK_SIZE && OneBlock(n, env.mp)
    ensures WriteFunc(n, env, st).ret == OK ==> WriteFunc(n, env, st).sent == n
  {
    assert Chunk(n, env.mp) == n;
    assert WriteLoop(0, env, st).sent == 0;
  }

  /** Otherwise one short write loses the tail without an error. */
  lemma SplitBlockLoses(n: nat, env: Env, st: State)
    requires 2 <= env.mp < n <= CONTEXT_BLOCK_SIZE && !OneBlock(n, env.mp)
    requires !st.prog.callback && st.prog.complete + n <= st.prog.total
    requires Answer(env, st.tick) == Sent(1) && Answer(env, st.tick + 1) == Sent(CONTEXT_BLOCK_SIZE)
    ensures var w := WriteFunc(n, env, st);
      w.ret == OK && w.sent < n && w.st.tick == st.tick + 2 && !w.st.prog.callback
  {
    var c := Chunk(n, env.mp);
    LoopCounts(n, env, st);
    assert c > 1 by {
      var q := n / env.mp;
      assert n == q * env.mp + n % env.mp;
      MulOrder(q, env.mp);
    }
    assert PushBlock(c, env, st.tick) == Block(true, c, c - 1, st.tick + 2);
  }

  /** From `tick` on the USB layer takes whatever it is given, and nobody cancels. */
  ghost predicate Generous(env: Env, st: State) {
    && env.mp > 0 && !st.prog.callback
    && forall t :: t >= st.tick ==> Answer(env, t) == Sent(CONTEXT_BLOCK_SIZE)
  }

  lemma {:induction false} GenerousLoop(n: nat, env: Env, st: State)
    requires Generous(env, st)
    ensures var o := WriteLoop(n, env, st);
      o.ret == OK && o.sent == n && o.st.tick >= st.tick && !o.st.prog.callback
  {
    if n > 0 {
      var c := Chunk(n, env.mp);
      assert PushBlock(c, env, st.tick) == Block(true, c, c, st.tick + 1);
      GenerousLoop(n - c, env, State(st.tick + 1, Report(Advance(st.prog, Write(c)))));
    }
  }

  lemma GenerousCall(n: nat, env: Env, st: State)
    requires Generous(env, st)
    ensures WriteFunc(n, env, st).ret == OK && WriteFunc(n, env, st).sent == n
    ensures Generous(env, WriteFunc(n, env, st).st)
  {
    GenerousLoop(n, env, st);
    assert Answer(env, WriteLoop(n, env, st).st.tick) == Sent(CONTEXT_BLOCK_SIZE);
  }

  lemma LosingFirst(n: nat, env: Env, st: State)
    requires 2 <= env.mp < n <= CONTEXT_BLOCK_SIZE && !OneBlock(n, env.mp)
    requires !st.prog.callback && st.prog.complete + n <= st.prog.total
    requires Answer(env, st.tick) == Sent(1)
    requires forall t :: t > st.tick ==> Answer(env, t) == Sent(CONTEXT_BLOCK_SIZE)
    ensures var w := WriteFunc(n, env, st); w.ret == OK && w.sent < n && Generous(env, w.st)
  {
    SplitBlockLoses(n, env, st);
  }
}
