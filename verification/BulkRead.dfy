/** What one call that reads from the bulk endpoint does, as a function of the packets the device sends. */
module BulkRead {
  import opened Bytes
  import opened TransferProgress
  import opened Usb

  type Packet = seq<Byte>

  /** One bulk transfer in: what arrived and the packets still to come. */
  datatype Transfer = Transfer(status: Ret, data: seq<Byte>, queue: seq<Packet>)

  /**
   A transfer of at most `len` bytes ends with a short packet or with the last byte asked for;
   a packet that does not fit is an overflow (section 5.8.3 of the USB 2.0 specification).
   */
  function Gather(queue: seq<Packet>, len: nat, mp: PacketSize): (t: Transfer)
    requires len > 0
    ensures |t.data| <= len && |t.queue| <= |queue| && (t.status == OK ==> |t.queue| < |queue|)
  {
    if queue == [] then Transfer(Timeout, [], [])
    else
      var p := queue[0];
      if |p| > len then Transfer(IOError, [], queue)
      else if |p| < mp || |p| == len then Transfer(OK, p, queue[1..])
      else
        var t := Gather(queue[1..], len - |p|, mp);
        if t.status == OK then t.(data := p + t.data) else t.(data := [])
  }

  /** Asking for no bytes takes a zero-length packet off the queue, if one is waiting. */
  function BulkTransfer(queue: seq<Packet>, len: nat, mp: PacketSize): (t: Transfer)
    ensures |t.data| <= len && |t.queue| <= |queue| && (t.status == OK ==> |t.queue| < |queue|)
  {
    if len > 0 then Gather(queue, len, mp)
    else if queue == [] then Transfer(Timeout, [], queue)
    else if queue[0] == [] then Transfer(OK, [], queue[1..])
    else Transfer(IOError, [], queue)
  }

  /** The device as far as reading depends on it; the user cancels at the progress reports in `cancels`. */
  datatype Device = Device(mp: PacketSize, iriver: bool, noZeroReads: bool, ignoreHeaderErrors: bool, cancels: set<nat>)

  function Block1(dev: Device): nat {
    if dev.mp == 0x400 then 0x3c00 else 0x3e00
  }

  function Block2(dev: Device): nat {
    if dev.mp == 0x400 then 0x400 else 0x200
  }

  /** One request of a read call: `left` bytes were still wanted, `toread` asked for. */
  datatype Asked = Asked(left: nat, toread: nat, terminator: bool)

  /** Between two requests of a call the previous request was one of the two block sizes. */
  predicate Steady(dev: Device, size: nat, cur: nat, prev: nat) {
    dev.iriver && cur > 0 && cur < size && size - cur >= CONTEXT_BLOCK_SIZE ==>
      prev == Block1(dev) || prev == Block2(dev)
  }

  /** The branch for the last packet: some devices send a terminator byte instead of a zero-length packet. */
  function LastRequest(dev: Device, left: nat, readzero: bool): (a: Asked)
    ensures a.terminator <==> readzero && dev.noZeroReads && left % dev.mp == 0
    ensures a.toread == left + (if a.terminator then 1 else 0)
  {
    if readzero && dev.noZeroReads && left % dev.mp == 0 then Asked(left, left + 1, true)
    else Asked(left, left, false)
  }

  /** The next request, after `cur` of `size` bytes; `prev` is what was asked for last. */
  function NextRequest(dev: Device, size: nat, cur: nat, prev: nat, readzero: bool): (a: Asked)
    requires cur < size && Steady(dev, size, cur, prev)
    ensures a.left == size - cur && 0 < a.toread <= CONTEXT_BLOCK_SIZE
    ensures a.toread <= a.left || (a.terminator && a.toread == a.left + 1)
    ensures a.left < CONTEXT_BLOCK_SIZE ==> a == LastRequest(dev, a.left, readzero)
    ensures a.left >= CONTEXT_BLOCK_SIZE && dev.iriver ==> a.toread == Block1(dev) || a.toread == Block2(dev)
  {
    var left := size - cur;
    if left < CONTEXT_BLOCK_SIZE then LastRequest(dev, left, readzero)
    else if dev.iriver then
      Asked(left, if cur == 0 then Block1(dev) else if prev == Block1(dev) then Block2(dev) else Block1(dev), false)
    else Asked(left, CONTEXT_BLOCK_SIZE, false)
  }

  /** One turn of the read loop; `more` if the request was filled and the loop goes on. */
  datatype Turn = Turn(ret: Ret, more: bool, data: seq<Byte>, queue: seq<Packet>, prog: Progress)

  ghost predicate Plausible(a: Asked, queue: seq<Packet>, t: Turn) {
    && |t.data| <= a.toread && |t.queue| <= |queue|
    && (t.ret == OK ==> |t.queue| < |queue|)
    && (t.more ==> t.ret == OK && |t.data| == a.toread)
    && (a.terminator && a.toread > 0 ==> |t.data| < a.toread)
  }

  function ReadTurn(dev: Device, a: Asked, queue: seq<Packet>, prog: Progress): (t: Turn)
    ensures Plausible(a, queue, t)
  {
    var t := BulkTransfer(queue, a.toread, dev.mp);
    if t.status != OK then Turn(t.status, false, [], t.queue, prog)
    else
      var data := if a.terminator && |t.data| == a.toread > 0 then t.data[..|t.data| - 1] else t.data;
      var p := Advance(prog, Read(|data|));
      if p.active && p.callback && |p.reported| in dev.cancels then Turn(Cancelled, false, data, t.queue, Report(p))
      else Turn(OK, |data| == a.toread, data, t.queue, Report(p))
  }

  /** Whatever answers the requests of a read call. */
  type Reader = f: (Asked, seq<Packet>, Progress) -> Turn | forall a, q, p :: Plausible(a, q, f(a, q, p))
    witness (a, q, p) => Turn(Timeout, false, [], q, p)

  /** The device as the reader. */
  function DeviceReader(dev: Device): Reader {
    (a: Asked, q: seq<Packet>, p: Progress) => ReadTurn(dev, a, q, p)
  }

  datatype ReadEnd = ReadEnd(ret: Ret, got: seq<Byte>, queue: seq<Packet>, prog: Progress, asked: seq<Asked>)

  function ReadLoop(dev: Device, reader: Reader, size: nat, cur: nat, prev: nat, readzero: bool, queue: seq<Packet>,
    prog: Progress): (e: ReadEnd)
    requires cur <= size && Steady(dev, size, cur, prev)
    ensures |e.got| <= size - cur && |e.queue| <= |queue|
    ensures cur < size && e.ret == OK ==> |e.queue| < |queue|
    decreases size - cur
  {
    if cur == size then ReadEnd(OK, [], queue, prog, [])
    else
      var a := NextRequest(dev, size, cur, prev, readzero);
      var t := reader(a, queue, prog);
      assert Plausible(a, queue, t);
      if !t.more then ReadEnd(t.ret, t.data, t.queue, t.prog, [a])
      else
        var e := ReadLoop(dev, reader, size, cur + |t.data|, a.toread, readzero, t.queue, t.prog);
        ReadEnd(e.ret, t.data + e.got, e.queue, e.prog, [a] + e.asked)
  }

  /** `e` is the bytes `got` so far and then `rest`. */
  ghost predicate Follows(e: ReadEnd, got: seq<Byte>, asked: seq<Asked>, rest: ReadEnd) {
    e == ReadEnd(rest.ret, got + rest.got, rest.queue, rest.prog, asked + rest.asked)
  }

  /** One unrolling of the loop. */
  lemma ReadStep(dev: Device, reader: Reader, size: nat, cur: nat, prev: nat, readzero: bool, queue: seq<Packet>,
    prog: Progress, e: ReadEnd, got: seq<Byte>, asked: seq<Asked>, a: Asked, t: Turn)
    requires cur < size && Steady(dev, size, cur, prev)
    requires a == NextRequest(dev, size, cur, prev, readzero) && t == reader(a, queue, prog)
    requires Follows(e, got, asked, ReadLoop(dev, reader, size, cur, prev, readzero, queue, prog))
    ensures |t.data| <= size - cur
    ensures !t.more ==> e == ReadEnd(t.ret, got + t.data, t.queue, t.prog, asked + [a])
    ensures t.more ==>
      && |t.data| == a.toread && Steady(dev, size, cur + |t.data|, a.toread)
      && Follows(e, got + t.data, asked + [a],
                 ReadLoop(dev, reader, size, cur + |t.data|, a.toread, readzero, t.queue, t.prog))
  {
    assert Plausible(a, queue, t);
    if t.more {
      var rest := ReadLoop(dev, reader, size, cur + |t.data|, a.toread, readzero, t.queue, t.prog);
      assert got + t.data + rest.got == got + (t.data + rest.got);
      assert asked + [a] + rest.asked == asked + ([a] + rest.asked);
    }
  }

  /** The loop, then the read of a zero-length packet that might be waiting. */
  function ReadFunc(dev: Device, size: nat, readzero: bool, queue: seq<Packet>, prog: Progress): (e: ReadEnd)
    ensures |e.got| <= size && |e.queue| <= |queue| && (size > 0 && e.ret == OK ==> |e.queue| < |queue|)
  {
    ReadZero(dev, readzero, ReadLoop(dev, DeviceReader(dev), size, 0, 0, readzero, queue, prog))
  }

  function ReadZero(dev: Device, readzero: bool, e: ReadEnd): ReadEnd {
    if e.ret == OK && readzero && !dev.noZeroReads && |e.got| % dev.mp == 0 then
      e.(queue := BulkTransfer(e.queue, 0, dev.mp).queue)
    else e
  }

  ghost predicate Keeps(inv: Progress -> bool, reader: Reader) {
    forall a, q, p :: inv(p) ==> inv(reader(a, q, p).prog)
  }

  lemma {:induction false} LoopKeeps(inv: Progress -> bool, dev: Device, reader: Reader, size: nat, cur: nat, prev: nat,
    readzero: bool, queue: seq<Packet>, prog: Progress, e: ReadEnd)
    requires Keeps(inv, reader) && inv(prog)
    requires cur <= size && Steady(dev, size, cur, prev)
    requires e == ReadLoop(dev, reader, size, cur, prev, readzero, queue, prog)
    ensures inv(e.prog)
    decreases size - cur
  {
    if cur < size {
      var a := NextRequest(dev, size, cur, prev, readzero);
      var t := reader(a, queue, prog);
      assert Plausible(a, queue, t) && inv(t.prog);
      if t.more {
        var e' := ReadLoop(dev, reader, size, cur + |t.data|, a.toread, readzero, t.queue, t.prog);
        LoopKeeps(inv, dev, reader, size, cur + |t.data|, a.toread, readzero, t.queue, t.prog, e');
      }
    }
  }

  lemma DeviceKeeps(inv: Progress -> bool, dev: Device)
    requires Kept(inv)
    ensures Keeps(inv, DeviceReader(dev))
  {
  }

  /** A read call keeps the callback discipline. */
  lemma ReadFuncOrderly(dev: Device, size: nat, readzero: bool, queue: seq<Packet>, prog: Progress)
    requires Orderly(prog)
    ensures Disciplined(prog, ReadFunc(dev, size, readzero, queue, prog).prog)
  {
    DisciplineKept(prog);
    DeviceKeeps(Discipline(prog), dev);
    var e := ReadLoop(dev, DeviceReader(dev), size, 0, 0, readzero, queue, prog);
    LoopKeeps(Discipline(prog), dev, DeviceReader(dev), size, 0, 0, readzero, queue, prog, e);
    assert Discipline(prog)(e.prog);
  }

  // ----- devices that read in two alternating block sizes

  /** From the `i`-th request on, with the second block size next if `second`. */
  ghost predicate Alternates(dev: Device, asked: seq<Asked>, second: bool) {
    asked != [] ==>
      && asked[0].toread <= CONTEXT_BLOCK_SIZE
      && (asked[0].left >= CONTEXT_BLOCK_SIZE ==> asked[0].toread == if second then Block2(dev) else Block1(dev))
      && Alternates(dev, asked[1..], !second)
  }

  /** The requests made before and after `cur` when the previous one was `prev`. */
  ghost predicate InTurn(dev: Device, size: nat, cur: nat, prev: nat) {
    && dev.iriver && cur < size
    && (cur > 0 ==> (prev == Block1(dev) || prev == Block2(dev)) && size - cur >= 0x200)
  }

  /** Whatever the transfers bring, the block sizes alternate and every request fits the buffer. */
  lemma {:induction false} BlockSizesAlternate(dev: Device, reader: Reader, size: nat, cur: nat, prev: nat,
    readzero: bool, queue: seq<Packet>, prog: Progress)
    requires InTurn(dev, size, cur, prev)
    ensures var e := ReadLoop(dev, reader, size, cur, prev, readzero, queue, prog);
      Alternates(dev, e.asked, cur > 0 && prev == Block1(dev))
    decreases size - cur
  {
    var a := NextRequest(dev, size, cur, prev, readzero);
    var t := reader(a, queue, prog);
    assert Plausible(a, queue, t);
    if t.more && a.left >= CONTEXT_BLOCK_SIZE {
      BlockSizesAlternate(dev, reader, size, cur + a.toread, a.toread, readzero, t.queue, t.prog);
      var e := ReadLoop(dev, reader, size, cur + a.toread, a.toread, readzero, t.queue, t.prog);
      assert ([a] + e.asked)[1..] == e.asked;
    }
  }

  /** If all `left` bytes came, the last request was one of the branch that takes care of terminators. */
  ghost predicate EndsShort(dev: Device, size: nat, readzero: bool, left: nat, e: ReadEnd) {
    e.asked != [] && (e.ret == OK && |e.got| == left ==> IsLast(dev, size, readzero, e.asked[|e.asked| - 1]))
  }

  ghost predicate IsLast(dev: Device, size: nat, readzero: bool, a: Asked) {
    && a.left < CONTEXT_BLOCK_SIZE
    && (size >= CONTEXT_BLOCK_SIZE ==> a.left >= 0x200)
    && a == LastRequest(dev, a.left, readzero)
  }

  lemma EndsShortCons(dev: Device, size: nat, readzero: bool, left: nat, a: Asked, data: seq<Byte>, e: ReadEnd)
    requires |data| <= left && EndsShort(dev, size, readzero, left - |data|, e)
    ensures EndsShort(dev, size, readzero, left, ReadEnd(e.ret, data + e.got, e.queue, e.prog, [a] + e.asked))
  {
    assert ([a] + e.asked)[|e.asked|] == e.asked[|e.asked| - 1];
  }

  /**
   A call that got everything ended in the branch that takes care of terminators, with at least
   0x200 bytes left if it was long.
   */
  lemma {:induction false} LastRequestIsShort(dev: Device, reader: Reader, size: nat, cur: nat, prev: nat,
    readzero: bool, queue: seq<Packet>, prog: Progress, e: ReadEnd)
    requires InTurn(dev, size, cur, prev)
    requires e == ReadLoop(dev, reader, size, cur, prev, readzero, queue, prog)
    ensures EndsShort(dev, size, readzero, size - cur, e)
    decreases size - cur
  {
    var a := NextRequest(dev, size, cur, prev, readzero);
    var t := reader(a, queue, prog);
    assert Plausible(a, queue, t);
    if t.more {
      var e' := ReadLoop(dev, reader, size, cur + a.toread, a.toread, readzero, t.queue, t.prog);
      assert e == ReadEnd(e'.ret, t.data + e'.got, e'.queue, e'.prog, [a] + e'.asked);
      if a.left >= CONTEXT_BLOCK_SIZE {
        LastRequestIsShort(dev, reader, size, cur + a.toread, a.toread, readzero, t.queue, t.prog, e');
        EndsShortCons(dev, size, readzero, size - cur, a, t.data, e');
      }
    }
  }
}
