/** The transport as it runs: buffers, counters and endpoints updated step by step. */
module UsbTransport {
  import opened Bytes
  import opened Containers
  import opened TransferProgress
  import opened Usb
  import opened BulkWrite
  import opened BulkRead
  import opened Phases
  import opened Reports
  import DataPhase

  /** The handler that reads from and writes to memory. */
  class MemHandler {
    var data: seq<Byte>
    var curoff: nat

    /** For sending `data`; for receiving, start with none. */
    constructor (data: seq<Byte>)
      ensures this.data == data && curoff == 0
    {
      this.data, curoff := data, 0;
    }

    method GetFunc(wantlen: nat) returns (got: seq<Byte>)
      requires curoff <= |data|
      modifies this`curoff
      ensures curoff == old(curoff) + |got| <= |data| && got == data[old(curoff)..curoff]
      ensures |got| == if old(curoff) + wantlen > |data| then |data| - old(curoff) else wantlen
    {
      var tocopy := wantlen;
      if curoff + tocopy > |data| {
        tocopy := |data| - curoff;
      }
      got := data[curoff..curoff + tocopy];
      curoff := curoff + tocopy;
    }

    /** Writes at the cursor and grows the memory if it has to. */
    method PutFunc(bytes: seq<Byte>)
      requires curoff <= |data|
      modifies this
      ensures curoff == old(curoff) + |bytes| <= |data|
      ensures data[..curoff] == old(data[..curoff]) + bytes
      ensures curoff < |data| ==> |data| == old(|data|) && data[curoff..] == old(data)[curoff..]
    {
      var tail := if curoff + |bytes| < |data| then data[curoff + |bytes|..] else [];
      data := data[..curoff] + bytes + tail;
      curoff := curoff + |bytes|;
    }
  }

  /** `wire` after `n` bytes of `data`, from position `from` on. */
  function Carry(wire: seq<Byte>, data: seq<Byte>, from: nat, n: nat): seq<Byte>
    requires from + n <= |data|
  {
    if n == 0 then wire else Carry(wire, data, from, n - 1) + [data[from + n - 1]]
  }

  lemma CarryNone(wire: seq<Byte>, data: seq<Byte>, from: nat)
    requires from <= |data|
    ensures Carry(wire, data, from, 0) == wire
  {
  }

  lemma {:induction false} CarryMore(wire: seq<Byte>, data: seq<Byte>, from: nat, j: nat, k: nat)
    requires from + j + k <= |data|
    ensures Carry(Carry(wire, data, from, j), data, from + j, k) == Carry(wire, data, from, j + k)
  {
    if k > 0 {
      CarryMore(wire, data, from, j, k - 1);
    }
  }

  lemma {:induction false} CarryLength(wire: seq<Byte>, data: seq<Byte>, from: nat, n: nat)
    requires from + n <= |data|
    ensures |Carry(wire, data, from, n)| == |wire| + n
  {
    if n > 0 {
      CarryLength(wire, data, from, n - 1);
    }
  }

  lemma {:induction false} CarryPart(wire: seq<Byte>, data: seq<Byte>, from: nat, part: seq<Byte>, i: nat, n: nat)
    requires from + |part| <= |data| && part == data[from..from + |part|] && i + n <= |part|
    ensures Carry(wire, part, i, n) == Carry(wire, data, from + i, n)
  {
    if n > 0 {
      CarryPart(wire, data, from, part, i, n - 1);
    }
  }

  lemma {:induction false} CarryIs(wire: seq<Byte>, data: seq<Byte>, from: nat, n: nat)
    requires from + n <= |data|
    ensures Carry(wire, data, from, n) == wire + data[from..from + n]
  {
    if n > 0 {
      CarryIs(wire, data, from, n - 1);
      assert data[from..from + n] == data[from..from + n - 1] + [data[from + n - 1]];
    } else {
      assert data[from..from] == [];
    }
  }

  class PtpUsb {
    const env: Env
    const dev: Device
    var tick: nat
    var prog: Progress
    /** What the OUT endpoint has carried, and where zero-length writes went out. */
    var wire: seq<Byte>
    var zeroWrites: seq<nat>
    /** What the IN endpoint still has to deliver. */
    var incoming: seq<Packet>
    var response_packet: seq<Byte>
    var split_header_data: bool

    constructor (env: Env, dev: Device, incoming: seq<Packet>)
      ensures this.env == env && this.dev == dev && this.incoming == incoming
      ensures tick == 0 && wire == [] && zeroWrites == [] && response_packet == [] && !split_header_data
      ensures prog == Progress(false, 0, 0, false, [])
    {
      this.env, this.dev, this.incoming := env, dev, incoming;
      tick, wire, zeroWrites, response_packet, split_header_data := 0, [], [], [], false;
      prog := Progress(false, 0, 0, false, []);
    }

    method BulkWrite(bytes: seq<Byte>) returns (ok: bool, xwritten: nat)
      requires bytes != []
      modifies this`tick, this`wire
      ensures tick == old(tick) + 1
      ensures ok <==> Answer(env, old(tick)).Sent?
      ensures xwritten == if ok then Accepted(Answer(env, old(tick)).n, |bytes|) else 0
      ensures wire == Carry(old(wire), bytes, 0, xwritten)
    {
      CarryIs(wire, bytes, 0, if Answer(env, tick).Sent? then Accepted(Answer(env, tick).n, |bytes|) else 0);
      var r := Answer(env, tick);
      tick := tick + 1;
      match r {
        case Failed =>
          ok, xwritten := false, 0;
        case Sent(n) =>
          ok, xwritten := true, Accepted(n, |bytes|);
          wire := wire + bytes[..xwritten];
          assert bytes[..xwritten] == bytes[0..0 + xwritten];
      }
    }

    /**
     The writes of a block that come to `whole`, when `usbwritten` of `total` bytes are out and the
     last write took `last`.
     */
    static ghost predicate Pushing(whole: Block, total: nat, usbwritten: nat, last: nat, env: Env, tick: nat) {
      && usbwritten <= total
      && var b := PushBlock(total - usbwritten, env, tick);
      whole == Block(b.ok, usbwritten + b.sent, if usbwritten == total then last else b.last, b.tick)
    }

    /** One write of a block. */
    method PushOnce(bytes: seq<Byte>, usbwritten: nat, ghost last: nat, ghost whole: Block, ghost wire0: seq<Byte>)
      returns (ok: bool, xwritten: nat)
      requires usbwritten < |bytes| && Pushing(whole, |bytes|, usbwritten, last, env, tick)
      requires wire == Carry(wire0, bytes, 0, usbwritten)
      modifies this`tick, this`wire, this`prog
      ensures usbwritten + xwritten <= |bytes| && wire == Carry(wire0, bytes, 0, usbwritten + xwritten)
      ensures prog == Advance(old(prog), Write(xwritten))
      ensures if ok then xwritten > 0 && Pushing(whole, |bytes|, usbwritten + xwritten, xwritten, env, tick)
              else whole == Block(false, usbwritten, 0, tick) && xwritten == 0
    {
      ghost var sofar := wire;
      ok, xwritten := BulkWrite(bytes[usbwritten..]);
      CarryPart(sofar, bytes, usbwritten, bytes[usbwritten..], 0, xwritten);
      CarryMore(wire0, bytes, 0, usbwritten, xwritten);
      prog := prog.(complete := prog.complete + xwritten);
    }

    /** One block: written until it is out or the USB layer fails. */
    method WriteBlock(bytes: seq<Byte>) returns (ok: bool, xwritten: nat)
      modifies this`tick, this`wire, this`prog
      ensures var b := PushBlock(|bytes|, env, old(tick));
        && ok == b.ok && xwritten == b.last && tick == b.tick
        && wire == Carry(old(wire), bytes, 0, b.sent)
        && prog == Advance(old(prog), Write(b.sent))
    {
      ghost var whole := PushBlock(|bytes|, env, tick);
      var usbwritten: nat := 0;
      ok, xwritten := true, 0;
      while usbwritten < |bytes|
        invariant ok && Pushing(whole, |bytes|, usbwritten, xwritten, env, tick)
        invariant wire == Carry(old(wire), bytes, 0, usbwritten)
        invariant prog == Advance(old(prog), Write(usbwritten))
      {
        ok, xwritten := PushOnce(bytes, usbwritten, xwritten, whole, old(wire));
        if !ok {
          return;
        }
        usbwritten := usbwritten + xwritten;
      }
    }

    /** The progress callback after a block; `cancel` is the user's answer. */
    method ReportProgress(cancels: set<nat>) returns (cancel: bool)
      modifies this`prog
      ensures prog == Report(old(prog))
      ensures cancel == (old(prog).active && old(prog).callback && |old(prog).reported| in cancels)
    {
      cancel := false;
      if prog.active {
        if prog.complete >= prog.total {
          prog := prog.(complete := prog.total, active := false);
        }
        if prog.callback {
          cancel := |prog.reported| in cancels;
          prog := prog.(reported := prog.reported + [prog.complete]);
        }
      }
    }

    /** A last block of several packets is cut to whole ones; what is left over goes out on its own. */
    method BlockSize(left: nat) returns (towrite: nat)
      requires left > 0
      ensures towrite == Chunk(left, env.mp)
    {
      towrite := left;
      if towrite > CONTEXT_BLOCK_SIZE {
        towrite := CONTEXT_BLOCK_SIZE;
      } else if towrite > env.mp && towrite % env.mp != 0 {
        towrite := towrite - towrite % env.mp;
      }
    }

    /** One turn of the write loop; `short` if the last write of the block was short. */
    method SendBlock(left: nat, handler: MemHandler) returns (ret: Ret, towrite: nat, short: bool)
      requires left > 0 && handler.curoff + left <= |handler.data|
      modifies this`tick, this`wire, this`prog, handler`curoff
      ensures var t := WriteTurn(left, env, State(old(tick), old(prog)));
        && ret == t.ret && towrite == t.chunk && State(tick, prog) == t.st
        && (ret == OK ==> short == !t.more)
        && wire == Carry(old(wire), handler.data, old(handler.curoff), t.sent)
        && handler.curoff == old(handler.curoff) + towrite
    {
      towrite := BlockSize(left);
      var bytes := handler.GetFunc(towrite);
      var ok, xwritten := WriteBlock(bytes);
      CarryPart(old(wire), handler.data, old(handler.curoff), bytes, 0, PushBlock(towrite, env, old(tick)).sent);
      short := xwritten < towrite;
      if !ok {
        return IOError, towrite, short;
      }
      var cancel := ReportProgress(env.cancels);
      ret := if cancel then Cancelled else OK;
    }

    /** In the loop of a write call that comes to `whole`: `curwrite` bytes are out, the last block was `towrite`. */
    static ghost predicate Writing(whole: Outcome, size: nat, curwrite: nat, towrite: nat, env: Env, st: State) {
      curwrite <= size && Continues(whole, curwrite, towrite, WriteLoop(size - curwrite, env, st), curwrite == size)
    }

    static lemma WritingStep(whole: Outcome, size: nat, curwrite: nat, last: nat, env: Env, st: State,
      t: BulkWrite.Turn)
      requires curwrite < size && Writing(whole, size, curwrite, last, env, st)
      requires t == WriteTurn(size - curwrite, env, st)
      ensures !t.more ==> whole == Outcome(t.ret, curwrite + t.sent, t.chunk, t.st)
      ensures t.more ==> Writing(whole, size, curwrite + t.sent, t.chunk, env, t.st)
    {
      var o, rest := WriteLoop(size - curwrite, env, st), WriteLoop(size - curwrite - t.sent, env, t.st);
      LoopStep(size - curwrite, env, st, t, o, rest);
      ContinuesOn(whole, size, curwrite, last, t, o, rest);
    }

    static lemma ContinuesOn(whole: Outcome, size: nat, curwrite: nat, last: nat, t: BulkWrite.Turn, o: Outcome,
      rest: Outcome)
      requires curwrite < size && curwrite + t.sent <= size && Continues(whole, curwrite, last, o, false)
      requires if t.more then Continues(o, t.sent, t.chunk, rest, size - curwrite == t.sent)
               else o == Outcome(t.ret, t.sent, t.chunk, t.st)
      ensures !t.more ==> whole == Outcome(t.ret, curwrite + t.sent, t.chunk, t.st)
      ensures t.more ==> Continues(whole, curwrite + t.sent, t.chunk, rest, curwrite + t.sent == size)
    {
    }

    /** The loop of a write call that comes to `whole`, stopped or not; `sent` of `curwrite` bytes got out. */
    static ghost predicate Going(whole: Outcome, size: nat, ret: Ret, stop: bool, curwrite: nat, towrite: nat,
      sent: nat, env: Env, st: State) {
      && curwrite <= size && (ret == OK ==> sent == curwrite) && sent <= curwrite
      && (stop ==> whole == Outcome(ret, sent, towrite, st))
      && (!stop ==> ret == OK && Writing(whole, size, curwrite, towrite, env, st))
    }

    /** One turn of the loop. */
    method NextBlock(size: nat, written: nat, ghost last: nat, handler: MemHandler, ghost whole: Outcome,
      ghost wire0: seq<Byte>, ghost from: nat)
      returns (ret: Ret, towrite: nat, curwrite: nat, stop: bool, ghost sent: nat)
      requires written < size && Going(whole, size, OK, false, written, last, written, env, State(tick, prog))
      requires handler.curoff == from + written && from + size <= |handler.data|
      requires wire == Carry(wire0, handler.data, from, written)
      modifies this`tick, this`wire, this`prog, handler`curoff
      ensures written < curwrite && Going(whole, size, ret, stop, curwrite, towrite, sent, env, State(tick, prog))
      ensures handler.curoff == from + curwrite
      ensures wire == Carry(wire0, handler.data, from, sent)
    {
      ghost var before := State(tick, prog);
      var short;
      ret, towrite, short := SendBlock(size - written, handler);
      ghost var t := WriteTurn(size - written, env, before);
      WritingStep(whole, size, written, last, env, before, t);
      curwrite := written + towrite;
      stop := ret != OK || short;
      sent := written + t.sent;
      CarryMore(wire0, handler.data, from, written, t.sent);
    }

    /** The loop of a write call. */
    method WriteBlocks(size: nat, handler: MemHandler) returns (ret: Ret, towrite: nat, curwrite: nat)
      requires handler.curoff + size <= |handler.data|
      modifies this`tick, this`wire, this`prog, handler`curoff
      ensures var o := WriteLoop(size, env, State(old(tick), old(prog)));
        && ret == o.ret && State(tick, prog) == o.st
        && wire == Carry(old(wire), handler.data, old(handler.curoff), o.sent)
        && (ret == OK ==> curwrite == o.sent && towrite == o.chunk && handler.curoff == old(handler.curoff) + o.sent)
    {
      ghost var whole := WriteLoop(size, env, State(tick, prog));
      ghost var from: nat, sent: nat := handler.curoff, 0;
      ret, towrite, curwrite := OK, 0, 0;
      var stop := false;
      while curwrite < size && !stop
        invariant Going(whole, size, ret, stop, curwrite, towrite, sent, env, State(tick, prog))
        invariant handler.curoff == from + curwrite && wire == Carry(old(wire), handler.data, from, sent)
        decreases size - curwrite
      {
        ret, towrite, curwrite, stop, sent := NextBlock(size, curwrite, towrite, handler, whole, old(wire), from);
      }
    }

    method PtpWriteFunc(size: nat, handler: MemHandler) returns (ret: Ret, written: nat)
      requires handler.curoff + size <= |handler.data|
      modifies this`tick, this`wire, this`prog, this`zeroWrites, handler`curoff
      ensures var w := WriteFunc(size, env, State(old(tick), old(prog)));
        && ret == w.ret && State(tick, prog) == w.st
        && wire == Carry(old(wire), handler.data, old(handler.curoff), w.sent)
        && zeroWrites == old(zeroWrites) + (if w.zero then [|wire|] else [])
        && (ret == OK ==> written == w.sent && handler.curoff == old(handler.curoff) + w.sent)
      ensures |old(wire)| <= |wire| && (ret == OK ==> |wire| == |old(wire)| + written)
      ensures Told(old(prog), Blocks(size, env.mp, |wire| - |old(wire)|), prog, ret, env.cancels)
      ensures ret == IOError <==> Fails(env, old(tick), tick)
    {
      hide Told, Fails, Blocks;
      var towrite;
      ghost var whole := WriteFunc(size, env, State(tick, prog));
      WriteTold(size, env, State(tick, prog), whole);
      WriteFails(size, env, State(tick, prog));
      CarryLength(wire, handler.data, handler.curoff, whole.sent);
      ret, towrite, written := WriteBlocks(size, handler);
      if ret != OK {
        return;
      }
      if prog.complete >= prog.total && towrite % env.mp == 0 {
        var ok := ZeroWrite();
        if !ok {
          ret := IOError;
        }
      }
    }

    method ZeroWrite() returns (ok: bool)
      modifies this`tick, this`zeroWrites
      ensures tick == old(tick) + 1 && zeroWrites == old(zeroWrites) + [|wire|]
      ensures ok <==> Answer(env, old(tick)).Sent?
    {
      ok := Answer(env, tick).Sent?;
      tick := tick + 1;
      zeroWrites := zeroWrites + [|wire|];
    }

    /** Sends a request container; here the count of the write is looked at. */
    method SendReq(code: int, trans: int, params: seq<int>) returns (ret: Ret)
      requires |params| <= 5
      modifies this`tick, this`wire, this`prog, this`zeroWrites
      ensures var req := RequestContainer(code, trans, params);
        var w := WriteFunc(|req|, env, State(old(tick), old(prog)));
        && State(tick, prog) == w.st && wire == old(wire) + req[..w.sent]
        && (ret == OK ==> wire == old(wire) + req)
        && (ret == OK <==> w.ret == OK && w.sent == |req|)
        && (ret == Cancelled <==> w.ret == Cancelled)
      ensures ret == OK || ret == Cancelled || ret == IOError
      ensures ret == OK ==> RequestOnWire(old(wire), wire, code, trans, params)
    {
      hide RequestOnWire, WriteFunc, Told, Fails, Blocks;
      RequestSent(wire, code, trans, params);
      var req := RequestContainer(code, trans, params);
      var towrite := |req|;
      var memhandler := new MemHandler(req);
      var written;
      ret, written := PtpWriteFunc(towrite, memhandler);
      CarryIs(old(wire), req, 0, WriteFunc(|req|, env, State(old(tick), old(prog))).sent);
      if ret != OK && ret != Cancelled {
        ret := IOError;
      }
      if ret == OK && written != towrite {
        ret := IOError;
      }
    }

    // ----- the data phase out

    /** The loop that sends the rest of the payload and comes to `whole`, running or stopped with `ret`. */
    static ghost predicate RestGoing(whole: DataPhase.Phase, ret: Ret, sent: nat, zeros: seq<nat>, left: nat, at: nat,
      maxLong: nat, env: Env, st: State)
    {
      && maxLong > 0
      && if ret == OK then RestFollows(whole, sent, zeros, DataPhase.SendRest(left, at, maxLong, env, st))
         else whole == DataPhase.Phase(ret, sent, zeros, st)
    }

    static ghost predicate RestFollows(whole: DataPhase.Phase, sent: nat, zeros: seq<nat>, p: DataPhase.Phase) {
      whole == DataPhase.Phase(p.ret, sent + p.sent, zeros + p.zeros, p.st)
    }

    static lemma RestStep(whole: DataPhase.Phase, sent: nat, zeros: seq<nat>, left: nat, at: nat, maxLong: nat,
      env: Env, st: State, w: Written)
      requires left > 0 && RestGoing(whole, OK, sent, zeros, left, at, maxLong, env, st)
      requires w == WriteFunc(if left > maxLong then maxLong else left, env, st)
      ensures w.sent <= left
      ensures RestGoing(whole, if w.ret == OK && w.sent == 0 then IOError else w.ret, sent + w.sent,
        zeros + DataPhase.ZeroAt(w, at), left - w.sent, at + w.sent, maxLong, env, w.st)
    {
      if w.ret == OK && w.sent > 0 {
        FollowsThen(whole, sent, zeros, w, at, DataPhase.SendRest(left - w.sent, at + w.sent, maxLong, env, w.st));
      }
    }

    static lemma FollowsThen(whole: DataPhase.Phase, sent: nat, zeros: seq<nat>, w: Written, at: nat,
      q: DataPhase.Phase)
      requires RestFollows(whole, sent, zeros, DataPhase.Then(w, at, q))
      ensures RestFollows(whole, sent + w.sent, zeros + DataPhase.ZeroAt(w, at), q)
    {
      assert zeros + DataPhase.ZeroAt(w, at) + q.zeros == zeros + (DataPhase.ZeroAt(w, at) + q.zeros);
    }

    /** One call of the loop that sends the rest of the payload. */
    method SendMore(left: nat, handler: MemHandler, maxLong: nat, ghost whole: DataPhase.Phase, ghost before: nat,
      ghost zeros: seq<nat>, ghost wire0: seq<Byte>, ghost from: nat, ghost zeroWrites0: seq<nat>)
      returns (ret: Ret, written: nat, ghost sent: nat, ghost zeros': seq<nat>)
      requires left > 0 && RestGoing(whole, OK, before, zeros, left, |wire|, maxLong, env, State(tick, prog))
      requires handler.curoff == from + before && handler.curoff + left <= |handler.data|
      requires wire == Carry(wire0, handler.data, from, before) && zeroWrites == zeroWrites0 + zeros
      modifies this`tick, this`wire, this`prog, this`zeroWrites, handler`curoff
      ensures written <= left && before <= sent && from + sent <= |handler.data|
      ensures ret == OK ==> 0 < written && sent == before + written && handler.curoff == from + sent
      ensures wire == Carry(wire0, handler.data, from, sent)
      ensures RestGoing(whole, ret, sent, zeros', left - written, |wire|, maxLong, env, State(tick, prog))
      ensures zeroWrites == zeroWrites0 + zeros'
    {
      hide WriteFunc, DataPhase.SendRest, Carry, Told, Fails, Blocks;
      ghost var st := State(tick, prog);
      var n := if left > maxLong then maxLong else left;
      ret, written := PtpWriteFunc(n, handler);
      ghost var w := WriteFunc(n, env, st);
      RestStep(whole, before, zeros, left, |old(wire)|, maxLong, env, st, w);
      CarryMore(wire0, handler.data, from, before, w.sent);
      CarryLength(old(wire), handler.data, old(handler.curoff), w.sent);
      sent := before + w.sent;
      zeros' := zeros + DataPhase.ZeroAt(w, |old(wire)|);
      Appended(zeroWrites0, zeros, DataPhase.ZeroAt(w, |old(wire)|));
      if ret != OK {
        written := 0;
      } else if written == 0 {
        ret := IOError;
      }
    }

    /** The loop that sends the rest of the payload. */
    method SendAll(size: nat, handler: MemHandler, maxLong: nat) returns (ret: Ret)
      requires maxLong > 0 && handler.curoff + size <= |handler.data|
      modifies this`tick, this`wire, this`prog, this`zeroWrites, handler`curoff
      ensures var p := DataPhase.SendRest(size, |old(wire)|, maxLong, env, State(old(tick), old(prog)));
        && ret == p.ret && State(tick, prog) == p.st
        && wire == Carry(old(wire), handler.data, old(handler.curoff), p.sent)
        && zeroWrites == old(zeroWrites) + p.zeros
    {
      hide WriteFunc;
      ghost var whole := DataPhase.SendRest(size, |wire|, maxLong, env, State(tick, prog));
      ghost var from: nat, sent: nat, zeros: seq<nat> := handler.curoff, 0, [];
      var left: nat := size;
      ret := OK;
      while left > 0 && ret == OK
        invariant 0 <= left <= size && from + sent <= |handler.data|
        invariant ret == OK ==> handler.curoff == from + sent && handler.curoff + left <= |handler.data|
        invariant RestGoing(whole, ret, sent, zeros, left, |wire|, maxLong, env, State(tick, prog))
        invariant wire == Carry(old(wire), handler.data, from, sent)
        invariant zeroWrites == old(zeroWrites) + zeros
        decreases ret == OK, left
      {
        var written;
        ret, written, sent, zeros := SendMore(left, handler, maxLong, whole, sent, zeros, old(wire), from,
          old(zeroWrites));
        left := left - written;
      }
    }

    /** The container that is written first: the header, and the inline payload unless headers are split. */
    method FirstContainer(code: int, trans: int, size: nat, handler: MemHandler)
      returns (usbdata: seq<Byte>, datawlen: nat)
      requires handler.curoff + size <= |handler.data|
      modifies handler`curoff
      ensures datawlen == DataPhase.InlineLen(size, split_header_data) &&
        handler.curoff == old(handler.curoff) + datawlen
      ensures usbdata == DataHeader(code, trans, size) + handler.data[old(handler.curoff)..handler.curoff]
    {
      usbdata := DataHeader(code, trans, size);
      datawlen := 0;
      if !split_header_data {
        datawlen :=
          if size < DataPhase.PTP_USB_BULK_PAYLOAD_LEN_WRITE then size
          else DataPhase.PTP_USB_BULK_PAYLOAD_LEN_WRITE;
        var got := handler.GetFunc(datawlen);
        usbdata := usbdata + got;
      }
    }

    /** Sends that container. The count of this write is not looked at. */
    method SendHeader(usbdata: seq<Byte>, size: nat) returns (ret: Ret, ghost w: Written)
      modifies this`tick, this`wire, this`prog, this`zeroWrites
      ensures w == WriteFunc(|usbdata|, env, DataPhase.Announced(size, State(old(tick), old(prog))))
      ensures ret == w.ret && State(tick, prog) == w.st
      ensures wire == Carry(old(wire), usbdata, 0, w.sent) && |wire| == |old(wire)| + w.sent
      ensures zeroWrites == old(zeroWrites) + (if w.zero then [|wire|] else [])
    {
      prog := prog.(complete := 0, total := size + HDR_LEN);
      var memhandler := new MemHandler(usbdata);
      ghost var st := State(tick, prog);
      var written;
      ret, written := PtpWriteFunc(|usbdata|, memhandler);
      w := WriteFunc(|usbdata|, env, st);
      CarryLength(old(wire), usbdata, 0, w.sent);
    }

    /** A data phase; `ulongs` is the number of values of an unsigned long. */
    method SendPhase(code: int, trans: int, size: nat, handler: MemHandler, ulongs: nat, ghost d: DataPhase.DataPhase)
      returns (ret: Ret)
      requires ulongs > env.mp && handler.curoff + size <= |handler.data|
      requires d == DataPhase.SendData(size, split_header_data, ulongs - env.mp, env, |wire|, State(tick, prog))
      modifies this`tick, this`wire, this`prog, this`zeroWrites, handler`curoff
      ensures ret == d.ret && State(tick, prog) == d.st
      ensures var n := DataPhase.InlineLen(size, split_header_data);
        var from := old(handler.curoff);
        wire == Carry(Carry(old(wire), DataHeader(code, trans, size) + handler.data[from..from + n], 0, d.first),
                      handler.data, from + n, d.rest)
      ensures zeroWrites == old(zeroWrites) + d.zeros
    {
      hide WriteFunc, DataPhase.SendRest, Framed, Carry, DataHeader;
      ghost var st := State(tick, prog);
      var usbdata, datawlen := FirstContainer(code, trans, size, handler);
      ghost var w;
      ret, w := SendHeader(usbdata, size);
      ghost var p := DataPhase.SendRest(size - datawlen, |wire|, ulongs - env.mp, env, w.st);
      Appended(old(zeroWrites), DataPhase.ZeroAt(w, |old(wire)|), p.zeros);
      CarryNone(wire, handler.data, handler.curoff);
      if ret != OK || size <= datawlen {
        return;
      }
      ret := SendAll(size - datawlen, handler, ulongs - env.mp);
      if ret != OK && ret != Cancelled {
        ret := IOError;
      }
    }

    /**
     The data phase out. If it succeeds, at most the end of the header write is missing on the wire. If
     that write is one block nothing is: the wire has carried the
     header and the payload, followed by a zero-length write exactly if the final part fills its packets.
     */
    method SendData(code: int, trans: int, size: nat, handler: MemHandler, ulongs: nat)
      returns (ret: Ret, ghost first: nat)
      requires Sane(env.mp) && ulongs > env.mp && ulongs % env.mp == 0
      requires handler.curoff + size <= |handler.data|
      modifies this`tick, this`wire, this`prog, this`zeroWrites, handler`curoff
      ensures var d := DataPhase.SendData(size, split_header_data, ulongs - env.mp, env, |old(wire)|,
        State(old(tick), old(prog)));
        ret == d.ret && State(tick, prog) == d.st && first == d.first && zeroWrites == old(zeroWrites) + d.zeros
      ensures var n := DataPhase.InlineLen(size, split_header_data);
        var payload := handler.data[old(handler.curoff)..old(handler.curoff) + size];
        ret == OK ==>
          && 0 < first <= HDR_LEN + n
          && wire == old(wire) + ((DataHeader(code, trans, size) + payload[..n])[..first] + payload[n..])
      ensures var n := DataPhase.InlineLen(size, split_header_data);
        var payload := handler.data[old(handler.curoff)..old(handler.curoff) + size];
        ret == OK && OneBlock(HDR_LEN + n, env.mp) ==>
          && first == HDR_LEN + n
          && wire == old(wire) + (DataHeader(code, trans, size) + payload)
          && zeroWrites == old(zeroWrites) +
               (if DataPhase.FinalPart(size, split_header_data) % env.mp == 0 then [|wire|] else [])
      ensures var w1 := if split_header_data then 12 else if size < 1012 then 12 + size else 1024;
        var final := if !split_header_data then if size <= 1012 then 12 + size else size - 1012
                     else if size == 0 then 12 else size;
        ret == OK && (w1 <= env.mp || w1 % env.mp == 0) ==>
          && DataOnWire(old(wire), wire, code, trans, handler.data[old(handler.curoff)..old(handler.curoff) + size])
          && zeroWrites == old(zeroWrites) + (if final % env.mp == 0 then [|wire|] else [])
      ensures ret == OK || ret == Cancelled || ret == IOError
      ensures ret == IOError <==> Fails(env, old(tick), tick)
      ensures ret == OK && old(prog).active && old(prog).callback && old(prog).reported == [] ==>
        && |wire| >= |old(wire)| && prog.reported != []
        && prog.reported[|prog.reported| - 1] == |wire| - |old(wire)|
        && (12 + size in prog.reported <==> |wire| == |old(wire)| + 12 + size)
    {
      hide DataPhase.SendData, DataPhase.InlineLen, DataPhase.FinalPart, Carry, OneBlock, Sane, DataOnWire, DataHeader,
        Fails;
      ghost var d := DataPhase.SendData(size, split_header_data, ulongs - env.mp, env, |wire|, State(tick, prog));
      ghost var start := State(tick, prog);
      ret := SendPhase(code, trans, size, handler, ulongs, d);
      first := d.first;
      DataPhase.SendDataFails(size, split_header_data, ulongs - env.mp, env, |old(wire)|, start, d);
      if ret == OK {
        SubMod(ulongs, env.mp, env.mp);
        PhaseCut(code, trans, size, handler.data, old(handler.curoff), split_header_data, ulongs - env.mp, env, start,
          old(wire), wire, d);
        PhaseWhole(code, trans, size, handler.data, old(handler.curoff), split_header_data, ulongs - env.mp, env,
          start, old(wire), wire, d);
        PhaseReported(code, trans, size, handler.data[old(handler.curoff)..old(handler.curoff) + size],
          split_header_data, ulongs - env.mp, env, start, old(wire), wire, d);
      }
    }

    // ----- reading

    method BulkIn(len: nat) returns (ret: Ret, bytes: seq<Byte>)
      modifies this`incoming
      ensures var t := BulkTransfer(old(incoming), len, dev.mp);
        ret == t.status && bytes == t.data && incoming == t.queue
    {
      var t := BulkTransfer(incoming, len, dev.mp);
      ret, bytes, incoming := t.status, t.data, t.queue;
    }

    /** How much to ask for next, and whether a terminator byte comes with it. */
    method RequestSize(size: nat, curread: nat, last: nat, readzero: bool) returns (toread: nat, terminator: bool)
      requires curread < size && Steady(dev, size, curread, last)
      ensures NextRequest(dev, size, curread, last, readzero) == Asked(size - curread, toread, terminator)
    {
      toread, terminator := last, false;
      if size - curread < CONTEXT_BLOCK_SIZE {
        toread := size - curread;
        if readzero && dev.noZeroReads && toread % dev.mp == 0 {
          toread := toread + 1;
          terminator := true;
        }
      } else if dev.iriver {
        if curread == 0 {
          toread := Block1(dev);
        } else if toread == Block1(dev) {
          toread := Block2(dev);
        } else if toread == Block2(dev) {
          toread := Block1(dev);
        } else {
          assert false;
        }
      } else {
        toread := CONTEXT_BLOCK_SIZE;
      }
    }

    /** One request of a read call, handed to the handler and reported; `more` if it was filled. */
    method ReadBlock(toread: nat, terminator: bool, handler: MemHandler, ghost left: nat)
      returns (ret: Ret, xread: nat, more: bool, ghost t: BulkRead.Turn)
      requires handler.curoff == |handler.data|
      modifies this`incoming, this`prog, handler
      ensures t == DeviceReader(dev)(Asked(left, toread, terminator), old(incoming), old(prog))
      ensures ret == t.ret && more == t.more && incoming == t.queue && prog == t.prog
      ensures handler.data == old(handler.data) + t.data && handler.curoff == |handler.data|
      ensures ret == OK ==> xread == |t.data|
    {
      t := DeviceReader(dev)(Asked(left, toread, terminator), incoming, prog);
      var bytes;
      ret, bytes := BulkIn(toread);
      xread, more := 0, false;
      if ret != OK {
        return;
      }
      if terminator && |bytes| == toread && toread > 0 {
        bytes := bytes[..|bytes| - 1];
      }
      xread := |bytes|;
      handler.PutFunc(bytes);
      if prog.active {
        prog := prog.(complete := prog.complete + xread);
      }
      var cancel := ReportProgress(dev.cancels);
      if cancel {
        return Cancelled, xread, false, t;
      }
      more := xread == toread;
    }

    /** The read loop that comes to `whole`, running or ended; `got` and `asked` are behind it. */
    static ghost predicate Reading(whole: ReadEnd, dev: Device, size: nat, readzero: bool, more: bool, ret: Ret,
      curread: nat, toread: nat, got: seq<Byte>, asked: seq<Asked>, queue: seq<Packet>, prog: Progress)
    {
      if !more then whole == ReadEnd(ret, got, queue, prog, asked)
      else
        && ret == OK && |got| == curread <= size && Steady(dev, size, curread, toread)
        && Follows(whole, got, asked, ReadLoop(dev, DeviceReader(dev), size, curread, toread, readzero, queue, prog))
    }

    /** One turn of the read loop. */
    method ReadTurnOf(size: nat, cur: nat, last: nat, readzero: bool, handler: MemHandler,
      ghost whole: ReadEnd, ghost got: seq<Byte>, ghost asked: seq<Asked>, ghost before: seq<Byte>)
      returns (ret: Ret, curread: nat, toread: nat, more: bool, ghost got': seq<Byte>, ghost asked': seq<Asked>)
      requires cur < size && Reading(whole, dev, size, readzero, true, OK, cur, last, got, asked, incoming, prog)
      requires handler.curoff == |handler.data| && handler.data == before + got
      modifies this`incoming, this`prog, handler
      ensures Reading(whole, dev, size, readzero, more, ret, curread, toread, got', asked', incoming, prog)
      ensures handler.curoff == |handler.data| && handler.data == before + got'
      ensures more ==> cur < curread
      ensures ret == OK ==> curread == |got'|
    {
      hide ReadLoop, DeviceReader;
      ghost var queue, prog0 := incoming, prog;
      var terminator;
      toread, terminator := RequestSize(size, cur, last, readzero);
      var xread;
      ghost var t;
      ret, xread, more, t := ReadBlock(toread, terminator, handler, size - cur);
      ghost var a := Asked(size - cur, toread, terminator);
      ReadStep(dev, DeviceReader(dev), size, cur, last, readzero, queue, prog0, whole, got, asked, a, t);
      got', asked' := got + t.data, asked + [a];
      Appended(before, got, t.data);
      curread := cur + xread;
    }

    static lemma ReadDone(whole: ReadEnd, dev: Device, size: nat, readzero: bool, toread: nat, got: seq<Byte>,
      asked: seq<Asked>, queue: seq<Packet>, prog: Progress)
      requires Reading(whole, dev, size, readzero, true, OK, size, toread, got, asked, queue, prog)
      ensures whole == ReadEnd(OK, got, queue, prog, asked)
    {
      assert got + [] == got && asked + [] == asked;
    }

    method PtpReadFunc(size: nat, handler: MemHandler, readzero: bool) returns (ret: Ret, readbytes: nat)
      requires handler.curoff == |handler.data|
      modifies this`incoming, this`prog, handler
      ensures var e := ReadFunc(dev, size, readzero, old(incoming), old(prog));
        && ret == e.ret && incoming == e.queue && prog == e.prog
        && handler.data == old(handler.data) + e.got && handler.curoff == |handler.data|
        && (ret == OK ==> readbytes == |e.got|)
      ensures exists blocks ::
        && Told(old(prog), blocks, prog, ret, dev.cancels)
        && Sum(blocks) == |handler.data| - |old(handler.data)|
        && (ret == OK ==> blocks == Delivered(dev, size, false, readzero, readbytes))
      ensures Settled(old(prog), prog)
    {
      hide ReadLoop, DeviceReader, Told, Settled, Delivered, Sum;
      ghost var blocks := ReadTold(dev, size, readzero, incoming, prog, ReadFunc(dev, size, readzero, incoming, prog));
      ghost var whole := ReadLoop(dev, DeviceReader(dev), size, 0, 0, readzero, incoming, prog);
      ghost var got: seq<Byte>, asked: seq<Asked> := [], [];
      assert ReadEnd(whole.ret, [] + whole.got, whole.queue, whole.prog, [] + whole.asked) == whole;
      var toread: nat, curread: nat, more := 0, 0, true;
      ret := OK;
      while more && curread < size
        invariant Reading(whole, dev, size, readzero, more, ret, curread, toread, got, asked, incoming, prog)
        invariant handler.curoff == |handler.data| && handler.data == old(handler.data) + got
        invariant ret == OK ==> curread == |got|
        decreases more, size - curread
      {
        ret, curread, toread, more, got,
          asked := ReadTurnOf(size, curread, toread, readzero, handler, whole, got, asked, old(handler.data));
      }
      assert more ==> whole == ReadEnd(OK, got, incoming, prog, asked) by {
        if more {
          ReadDone(whole, dev, size, readzero, toread, got, asked, incoming, prog);
        }
      }
      readbytes := curread;
      if ret == OK && readzero && !dev.noZeroReads && curread % dev.mp == 0 {
        var zeroresult, temp := BulkIn(0);
      }
    }

    // ----- the data phase in, and the response

    method GetPacket() returns (ret: Ret, packet: seq<Byte>)
      modifies this`incoming, this`prog, this`response_packet
      ensures var r := Phases.GetPacket(dev, Link(old(incoming), old(response_packet), split_header_data, old(prog)));
        ret == r.ret && packet == r.packet && r.link == Link(incoming, response_packet, split_header_data, prog)
    {
      hide ReadFunc, Told, Settled, Sum, Delivered;
      if |response_packet| > 0 {
        packet := response_packet;
        response_packet := [];
        return OK, packet;
      }
      var memhandler := new MemHandler([]);
      var rlen;
      ret, rlen := PtpReadFunc(dev.mp, memhandler, false);
      packet := memhandler.data;
    }

    /** Stuffs data directly into the handler until a transfer ends. */
    method DrainInto(handler: MemHandler) returns (ret: Ret)
      requires handler.curoff == |handler.data|
      modifies this`incoming, this`prog, handler
      ensures var r := Drain(dev, Link(old(incoming), response_packet, split_header_data, old(prog)));
        && ret == r.ret && r.link == Link(incoming, response_packet, split_header_data, prog)
        && handler.data == old(handler.data) + r.packet && handler.curoff == |handler.data|
    {
      hide ReadFunc, Told, Settled, Sum, Delivered;
      ghost var whole := Drain(dev, Link(incoming, response_packet, split_header_data, prog));
      ghost var got: seq<Byte> := [];
      assert whole.packet == [] + whole.packet;
      while true
        invariant var link := Link(incoming, response_packet, split_header_data, prog);
          whole == Drain(dev, link).(packet := got + Drain(dev, link).packet)
        invariant handler.data == old(handler.data) + got && handler.curoff == |handler.data|
        decreases |incoming|
      {
        ghost var link := Link(incoming, response_packet, split_header_data, prog);
        var readdata;
        ret, readdata := PtpReadFunc(LONG_READ, handler, false);
        ghost var e := ReadFunc(dev, LONG_READ, false, link.queue, link.prog);
        DrainStep(dev, link, whole, got, e);
        Appended(old(handler.data), got, e.got);
        got := got + e.got;
        if ret != OK || readdata < LONG_READ {
          return;
        }
      }
    }

    /** Keeps what came behind the container if it can be a packet of its own; returns the length of the rest. */
    method TakeSurplus(packet: seq<Byte>, length: nat) returns (rlen: nat)
      requires length >= HDR_LEN
      modifies this`response_packet, this`split_header_data
      ensures rlen == if |packet| > length then length else |packet|
      ensures response_packet == if |packet[rlen..]| >= HDR_LEN then packet[rlen..] else old(response_packet)
      ensures split_header_data == (old(split_header_data) || (length > HDR_LEN && rlen == HDR_LEN))
    {
      rlen := |packet|;
      if rlen > length {
        var surplen := rlen - length;
        if surplen >= HDR_LEN {
          response_packet := packet[length..];
        }
        rlen := length;
      }
      if length > HDR_LEN && rlen == HDR_LEN {
        split_header_data := true;
      }
    }

    /** Reads away the terminator byte or the empty packet that may follow a container of one whole packet. */
    method ReadBehindHeader(length: nat)
      modifies this`incoming
      ensures incoming == BehindHeader(dev, length, split_header_data, old(incoming))
    {
      if dev.noZeroReads && length == dev.mp {
        var result, byte := BulkIn(1);
      } else if length == dev.mp && !split_header_data {
        var zeroresult, zerobyte := BulkIn(0);
      }
    }

    /** The rest of a data phase whose first packet was short. */
    method FinishShortData(packet: seq<Byte>, length: nat, handler: MemHandler) returns (ret: Ret)
      requires |packet| >= HDR_LEN && length >= HDR_LEN && handler.curoff == |handler.data|
      modifies this`incoming, this`prog, this`response_packet, this`split_header_data, handler
      ensures var d := GetShortData(dev, packet, length,
                                    Link(old(incoming), old(response_packet), old(split_header_data), old(prog)));
        && ret == d.ret && d.link == Link(incoming, response_packet, split_header_data, prog)
        && handler.data == old(handler.data) + d.data && handler.curoff == |handler.data|
    {
      hide ReadFunc, BehindHeader, Told, Settled, Sum, Delivered;
      var rlen := TakeSurplus(packet, length);
      handler.PutFunc(packet[HDR_LEN..rlen]);
      ReadBehindHeader(length);
      if length <= rlen {
        return OK;
      }
      ghost var e := ReadFunc(dev, length - rlen, true, incoming, prog);
      Appended(old(handler.data), packet[HDR_LEN..rlen], e.got);
      var readbytes;
      ret, readbytes := PtpReadFunc(length - rlen, handler, true);
    }

    /** The data phase in: the handler gets what the container holds. */
    method GetData(code: int, handler: MemHandler) returns (ret: Ret)
      requires handler.curoff == |handler.data|
      modifies this`incoming, this`prog, this`response_packet, this`split_header_data, handler
      ensures var d := Phases.GetData(dev, code,
        Link(old(incoming), old(response_packet), old(split_header_data), old(prog)));
        && ret == d.ret && d.link == Link(incoming, response_packet, split_header_data, prog)
        && handler.data == old(handler.data) + d.data && handler.curoff == |handler.data|
    {
      hide ReadFunc, Drain, Phases.GetPacket, GetShortData;
      var packet;
      ret, packet := GetPacket();
      if ret != OK {
        return IOError;
      }
      var usbdata := Overlay(Zeroed(), packet);
      if Get16(usbdata, 4) != PTP_USB_CONTAINER_DATA {
        return DataExpected;
      }
      var got := Get16(usbdata, 6);
      if got != code && !dev.ignoreHeaderErrors {
        return if PTP_RC_UNDEFINED <= got <= PTP_RC_LAST then Code(got) else IOError;
      }
      var length := Get32(usbdata, 0);
      if |packet| < HDR_LEN {
        return Undefined;
      }
      if |packet| == dev.mp {
        handler.PutFunc(packet[HDR_LEN..]);
        if |packet| == length {
          return OK;
        }
        ret := DrainInto(handler);
      } else if length < HDR_LEN {
        ret := Undefined;
      } else {
        ret := FinishShortData(packet, length, handler);
      }
    }

    /** Reads the response; short packets of zeros in front of it are read over. */
    method ReadResponse() returns (ret: Ret, usbresp: seq<Byte>)
      modifies this`incoming, this`prog, this`response_packet
      ensures var p := Phases.GetPacket(dev, Link(old(incoming), old(response_packet), split_header_data, old(prog)));
        var r := NextResponse(dev, Zeroed(), p);
        ret == r.ret && (ret == OK ==> usbresp == r.packet) &&
          r.link == Link(incoming, response_packet, split_header_data, prog)
    {
      hide ReadFunc, Phases.GetPacket;
      ghost var p := Phases.GetPacket(dev, Link(incoming, response_packet, split_header_data, prog));
      ghost var next := NextResponse(dev, Zeroed(), p);
      var buffer, packet := Zeroed(), [];
      ret, packet := GetPacket();
      usbresp := if ret == OK then Overlay(buffer, packet) else buffer;
      while ret == OK && |packet| < HDR_LEN && Get32(usbresp, 0) == 0
        invariant |buffer| == CONTAINER_SIZE && |usbresp| >= CONTAINER_SIZE
        invariant ret == OK ==> usbresp == Overlay(buffer, packet)
        invariant next == NextResponse(dev, buffer,
          PacketRead(ret, packet, Link(incoming, response_packet, split_header_data, prog)))
        decreases ret == OK, Waiting(Link(incoming, response_packet, split_header_data, prog))
      {
        buffer := usbresp;
        ret, packet := GetPacket();
        usbresp := if ret == OK then Overlay(buffer, packet) else buffer;
      }
    }

    /** The response phase. */
    method GetResp(asked: int, lastTrans: int) returns (ret: Ret, resp: Response)
      modifies this`incoming, this`prog, this`response_packet
      ensures var r := Phases.GetResp(dev, asked, lastTrans,
        Link(old(incoming), old(response_packet), split_header_data, old(prog)));
        ret == r.ret && resp == r.resp && r.link == Link(incoming, response_packet, split_header_data, prog)
    {
      hide ReadFunc, Phases.GetPacket, NextResponse;
      resp := Response(asked, 0, []);
      var usbresp;
      ret, usbresp := ReadResponse();
      if ret != OK {
        return IOError, resp;
      }
      var code := Get16(usbresp, 6);
      if Get16(usbresp, 4) != PTP_USB_CONTAINER_RESPONSE {
        return RespExpected, resp;
      }
      if code != asked && code != PTP_RC_OK {
        return Code(code), resp;
      }
      var trans := if dev.ignoreHeaderErrors then lastTrans else Get32(usbresp, 8);
      resp := Response(code, trans, Params(usbresp));
    }
  }

  lemma FirstAndFinal(size: nat, split: bool, mp: PacketSize)
    ensures var w1 := if split then 12 else if size < 1012 then 12 + size else 1024;
      w1 == HDR_LEN + DataPhase.InlineLen(size, split) && (OneBlock(w1, mp) <==> w1 <= mp || w1 % mp == 0)
    ensures var final := if !split then if size <= 1012 then 12 + size else size - 1012
                         else if size == 0 then 12 else size;
      final == DataPhase.FinalPart(size, split)
  {
  }

  function DataHeader(code: int, trans: int, size: nat): (h: seq<Byte>)
    ensures |h| == HDR_LEN && Framed(h, 12 + size, 2, code, trans, [])
  {
    var header := Header(HDR_LEN + size, PTP_USB_CONTAINER_DATA, code, trans);
    HeaderFramed(HDR_LEN + size, PTP_USB_CONTAINER_DATA, code, trans, []);
    assert header + [] == header;
    header
  }

  /**
   The wire after the two halves of a phase: the first `first` bytes of the container, then the rest of
   the payload.
   */
  lemma Assembled(wire: seq<Byte>, header: seq<Byte>, data: seq<Byte>, from: nat, size: nat, n: nat, first: nat)
    requires from + size <= |data| && n <= size && first <= |header| + n
    ensures var payload := data[from..from + size];
      Carry(Carry(wire, header + data[from..from + n], 0, first), data, from + n, size - n)
      == wire + ((header + payload[..n])[..first] + payload[n..])
  {
    var payload, container := data[from..from + size], header + data[from..from + n];
    assert payload[..n] == data[from..from + n] && payload[n..] == data[from + n..from + size];
    CarryIs(wire, container, 0, first);
    CarryIs(wire + container[..first], data, from + n, size - n);
    Appended(wire, container[..first], payload[n..]);
  }

  /** A successful phase lacks at most the end of its first write. */
  lemma PhaseCut(code: int, trans: int, size: nat, data: seq<Byte>, from: nat, split: bool, maxLong: nat, env: Env,
    st: State, wire0: seq<Byte>, wire: seq<Byte>, d: DataPhase.DataPhase)
    requires Sane(env.mp) && maxLong > 0 && from + size <= |data|
    requires d == DataPhase.SendData(size, split, maxLong, env, |wire0|, st) && d.ret == OK
    requires var n := DataPhase.InlineLen(size, split);
      wire == Carry(Carry(wire0, DataHeader(code, trans, size) + data[from..from + n], 0, d.first), data, from + n,
                    d.rest)
    ensures var n := DataPhase.InlineLen(size, split);
      var payload := data[from..from + size];
      && n <= size && 0 < d.first <= HDR_LEN + n
      && wire == wire0 + ((DataHeader(code, trans, size) + payload[..n])[..d.first] + payload[n..])
  {
    hide DataPhase.SendData, Carry, Sane;
    var n := DataPhase.InlineLen(size, split);
    DataPhase.OnlyFirstCutShort(size, split, maxLong, env, |wire0|, st, d);
    Assembled(wire0, DataHeader(code, trans, size), data, from, size, n, d.first);
  }

  /** If the first write is one block, nothing is lacking. */
  lemma PhaseWhole(code: int, trans: int, size: nat, data: seq<Byte>, from: nat, split: bool, maxLong: nat, env: Env,
    st: State, wire0: seq<Byte>, wire: seq<Byte>, d: DataPhase.DataPhase)
    requires Sane(env.mp) && maxLong > 0 && maxLong % env.mp == 0 && from + size <= |data|
    requires d == DataPhase.SendData(size, split, maxLong, env, |wire0|, st) && d.ret == OK
    requires var n := DataPhase.InlineLen(size, split);
      var payload := data[from..from + size];
      && n <= size && d.first <= HDR_LEN + n
      && wire == wire0 + ((DataHeader(code, trans, size) + payload[..n])[..d.first] + payload[n..])
    ensures OneBlock(HDR_LEN + DataPhase.InlineLen(size, split), env.mp) ==>
      && d.first == HDR_LEN + DataPhase.InlineLen(size, split)
      && wire == wire0 + (DataHeader(code, trans, size) + data[from..from + size])
      && d.zeros == (if DataPhase.FinalPart(size, split) % env.mp == 0 then [|wire|] else [])
    ensures var w1 := if split then 12 else if size < 1012 then 12 + size else 1024;
      var final := if !split then if size <= 1012 then 12 + size else size - 1012
                   else if size == 0 then 12 else size;
      w1 <= env.mp || w1 % env.mp == 0 ==>
        && DataOnWire(wire0, wire, code, trans, data[from..from + size])
        && d.zeros == (if final % env.mp == 0 then [|wire|] else [])
  {
    hide DataPhase.SendData, DataPhase.FinalPart, Sane, DataOnWire;
    FirstAndFinal(size, split, env.mp);
    var n := DataPhase.InlineLen(size, split);
    if OneBlock(HDR_LEN + n, env.mp) {
      DataPhase.SendDataComplete(size, split, maxLong, env, |wire0|, st, d);
      Whole(DataHeader(code, trans, size), data[from..from + size], n);
      DataSent(wire0, wire, code, trans, data[from..from + size]);
    }
  }

  /** What the user saw last is what the wire carries. */
  lemma PhaseReported(code: int, trans: int, size: nat, payload: seq<Byte>, split: bool, maxLong: nat, env: Env,
    st: State, wire0: seq<Byte>, wire: seq<Byte>, d: DataPhase.DataPhase)
    requires Sane(env.mp) && maxLong > 0 && |payload| == size
    requires d == DataPhase.SendData(size, split, maxLong, env, |wire0|, st) && d.ret == OK
    requires var n := DataPhase.InlineLen(size, split);
      && n <= size && d.first <= HDR_LEN + n
      && wire == wire0 + ((DataHeader(code, trans, size) + payload[..n])[..d.first] + payload[n..])
    ensures |wire| == |wire0| + d.first + d.rest
    ensures st.prog.active && st.prog.callback && st.prog.reported == [] ==>
      var r := d.st.prog.reported;
      r != [] && r[|r| - 1] == |wire| - |wire0| && (12 + size in r <==> |wire| == |wire0| + 12 + size)
  {
    hide DataPhase.SendData, Sane;
    var n := DataPhase.InlineLen(size, split);
    PhaseLength(DataHeader(code, trans, size), payload, n, d.first);
    DataPhase.OnlyFirstCutShort(size, split, maxLong, env, |wire0|, st, d);
    if st.prog.active && st.prog.callback && st.prog.reported == [] {
      SendDataReported(size, split, maxLong, env, |wire0|, st, d);
    }
  }

  lemma PhaseLength(header: seq<Byte>, payload: seq<Byte>, n: nat, first: nat)
    requires n <= |payload| && first <= |header| + n
    ensures |(header + payload[..n])[..first] + payload[n..]| == first + (|payload| - n)
  {
  }

  lemma Whole(header: seq<Byte>, payload: seq<Byte>, n: nat)
    requires n <= |payload|
    ensures (header + payload[..n])[..|header| + n] + payload[n..] == header + payload
  {
  }
}
