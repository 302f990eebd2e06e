/** Devices flagged against zero-length packets: a full last packet is followed by a terminator byte instead. */
module Terminators {
  import opened Bytes
  import opened Containers
  import opened TransferProgress
  import opened Usb
  import opened BulkRead
  import opened Packets
  import opened Phases
  import opened Framing

  ghost predicate Flagged(dev: Device) {
    dev.noZeroReads && Ready(dev)
  }

  /** What such a device sends for `d`. */
  function Terminated(d: seq<Byte>, b: Byte, mp: PacketSize): seq<Byte> {
    if |d| % mp == 0 then d + [b] else d
  }

  /** The code asks for the terminator of a payload: not if the payload ends with a block of the full size. */
  predicate AsksForTerminator(dev: Device, size: nat) {
    dev.iriver || size % CONTEXT_BLOCK_SIZE != 0
  }

  /** A request that counts on a terminator and is filled hands on all but the terminator, and is the last. */
  ghost predicate Discards(reader: Reader, mp: PacketSize) {
    forall a: Asked, w: seq<Byte>, rest: seq<Packet>, prog: Progress ::
      a.terminator && a.toread == |w| > 0 && |w| % mp != 0 ==>
        Discarded(reader(a, Packetize(w, mp) + rest, prog), w, rest)
  }

  ghost predicate Discarded(t: Turn, w: seq<Byte>, rest: seq<Packet>)
    requires |w| > 0
  {
    t.ret == OK && !t.more && t.data == w[..|w| - 1] && t.queue == rest
  }

  lemma DeviceDiscards(dev: Device)
    requires dev.cancels == {}
    ensures Discards(DeviceReader(dev), dev.mp)
  {
    forall a: Asked, w: seq<Byte>, rest: seq<Packet>, prog: Progress |
      a.terminator && a.toread == |w| > 0 && |w| % dev.mp != 0
      ensures Discarded(DeviceReader(dev)(a, Packetize(w, dev.mp) + rest, prog), w, rest)
    {
      GatherAll(w, rest, dev.mp, Gather(Packetize(w, dev.mp) + rest, |w|, dev.mp));
    }
  }

  /** What is left on the queue behind the payload. */
  function Leftover(dev: Device, size: nat, b: Byte, rest: seq<Packet>): seq<Packet> {
    if AsksForTerminator(dev, size) then rest else [[b]] + rest
  }

  lemma TerminatedRest(d: seq<Byte>, b: Byte, mp: PacketSize, n: nat)
    requires n <= |d| && n % mp == 0
    ensures n <= |Terminated(d, b, mp)| && Terminated(d, b, mp)[..n] == d[..n]
    ensures Terminated(d, b, mp)[n..] == Terminated(d[n..], b, mp)
  {
    SubMod(|d|, n, mp);
  }

  lemma TerminatorAlone(b: Byte, mp: PacketSize)
    requires mp > 1
    ensures Packetize(Terminated([], b, mp), mp) == [[b]]
  {
    assert [] + [b] == [b];
  }

  /** The last request takes all that is left, terminator included. */
  lemma LastTurn(dev: Device, reader: Reader, d: seq<Byte>, b: Byte, rest: seq<Packet>, a: Asked, prog: Progress)
    requires Flagged(dev) && Faithful(reader, dev.mp) && Discards(reader, dev.mp) && d != []
    requires a == LastRequest(dev, |d|, true)
    ensures var t := reader(a, Packetize(Terminated(d, b, dev.mp), dev.mp) + rest, prog);
      t.ret == OK && t.data == d && t.queue == rest && (t.more ==> !a.terminator)
  {
    hide Packetize;
    var w := Terminated(d, b, dev.mp);
    var t := reader(a, Packetize(w, dev.mp) + rest, prog);
    if a.terminator {
      AddMod(|d|, 1, dev.mp);
      assert Discarded(t, w, rest);
      assert w[..|w| - 1] == d;
    } else {
      assert Turns(t, d, rest, |d|, dev.mp);
      assert d[..|d|] == d;
    }
  }

  /** The payload arrives without its terminator; the terminator stays on the queue when it was not asked for. */
  lemma {:induction false} LoopTerminated(dev: Device, reader: Reader, d: seq<Byte>, b: Byte, rest: seq<Packet>,
    size: nat, cur: nat, prev: nat, prog: Progress, e: ReadEnd)
    requires Flagged(dev) && Faithful(reader, dev.mp) && Discards(reader, dev.mp)
    requires cur < size && Steady(dev, size, cur, prev) && |d| == size - cur
    requires e == ReadLoop(dev, reader, size, cur, prev, true, Packetize(Terminated(d, b, dev.mp), dev.mp) + rest, prog)
    ensures e.ret == OK && e.got == d && e.queue == Leftover(dev, |d|, b, rest)
    decreases |d|
  {
    hide Packetize, Faithful, Discards;
    var queue := Packetize(Terminated(d, b, dev.mp), dev.mp) + rest;
    var a := NextRequest(dev, size, cur, prev, true);
    var t := reader(a, queue, prog);
    assert Plausible(a, queue, t);
    if a.left < CONTEXT_BLOCK_SIZE {
      LastTurn(dev, reader, d, b, rest, a, prog);
      assert d + [] == d;
    } else {
      BlockWhole(dev, size, cur, prev, true);
      BlockTurn(dev, reader, d, b, rest, a, prog);
      var e' := ReadLoop(dev, reader, size, cur + a.toread, a.toread, true, t.queue, t.prog);
      assert e == ReadEnd(e'.ret, t.data + e'.got, e'.queue, e'.prog, [a] + e'.asked);
      if a.toread < |d| {
        LoopTerminated(dev, reader, d[a.toread..], b, rest, size, cur + a.toread, a.toread, t.prog, e');
        JoinSlices(d, a.toread, |d|);
        LeftoverStep(dev, |d|, a.toread);
      } else {
        TerminatorAlone(b, dev.mp);
        assert d[..|d|] + [] == d && d[|d|..] == [];
      }
    }
  }

  lemma BlockTurn(dev: Device, reader: Reader, d: seq<Byte>, b: Byte, rest: seq<Packet>, a: Asked, prog: Progress)
    requires Faithful(reader, dev.mp) && 0 < a.toread <= |d| && !a.terminator && a.toread % dev.mp == 0
    ensures var t := reader(a, Packetize(Terminated(d, b, dev.mp), dev.mp) + rest, prog);
      && t.ret == OK && t.more && t.data == d[..a.toread]
      && t.queue == Packetize(Terminated(d[a.toread..], b, dev.mp), dev.mp) + rest
  {
    hide Packetize;
    var w := Terminated(d, b, dev.mp);
    TerminatedRest(d, b, dev.mp, a.toread);
    assert Turns(reader(a, Packetize(w, dev.mp) + rest, prog), w, rest, a.toread, dev.mp);
  }

  lemma LeftoverStep(dev: Device, size: nat, n: nat)
    requires n < size && (dev.iriver || n == CONTEXT_BLOCK_SIZE)
    ensures AsksForTerminator(dev, size) == AsksForTerminator(dev, size - n)
  {
    if n == CONTEXT_BLOCK_SIZE {
      SubMod(size, n, CONTEXT_BLOCK_SIZE);
    }
  }

  /**
   A payload in a transfer of its own arrives without its terminator byte, whatever its length. The
   terminator itself is read away if and only if the device is read in alternating blocks or the
   payload is not a whole number of blocks; otherwise it is left in front of the response.
   */
  lemma SplitTerminated(dev: Device, code: int, trans: int, payload: seq<Byte>, b: Byte, resp: seq<Byte>,
    rest: seq<Packet>, link: Link)
    requires Flagged(dev) && IsPayload(code, trans, payload) && link.response == [] && payload != []
    requires HDR_LEN + |payload| != dev.mp
    requires link.queue == [DataContainer(code, trans, payload)[..HDR_LEN]]
      + Packetize(Terminated(payload, b, dev.mp), dev.mp) + ([resp] + rest)
    ensures var d := GetData(dev, code, link);
      && d.ret == OK && d.data == payload && d.link.split && d.link.response == []
      && d.link.queue == Leftover(dev, |payload|, b, [resp] + rest)
    ensures DataIs(GetData(dev, code, link), payload, resp, rest) <==> AsksForTerminator(dev, |payload|)
  {
    hide Packetize, GetPacket, GetData, GetLongData, GetShortData, Flagged, ReadFunc;
    var h := Header(HDR_LEN + |payload|, PTP_USB_CONTAINER_DATA, code, trans);
    assert DataContainer(code, trans, payload)[..HDR_LEN] == h == h + [];
    var later := Packetize(Terminated(payload, b, dev.mp), dev.mp) + ([resp] + rest);
    assert link.queue == [h] + later;
    var r := GetPacket(dev, link);
    FlaggedIsReady(dev);
    Dispatch(dev, code, trans, payload, [], later, link, r);
    PayloadTerminated(dev, payload, b, [resp] + rest, r.link.prog);
    HeaderAlone(dev, r.packet, |payload|, r.link);
    assert [resp] + rest != Leftover(dev, |payload|, b, [resp] + rest) <==> !AsksForTerminator(dev, |payload|);
    assert ([[b]] + ([resp] + rest))[0] != [];
  }

  lemma PayloadTerminated(dev: Device, d: seq<Byte>, b: Byte, rest: seq<Packet>, prog: Progress)
    requires Flagged(dev) && d != []
    ensures var e := ReadFunc(dev, |d|, true, Packetize(Terminated(d, b, dev.mp), dev.mp) + rest, prog);
      e.ret == OK && e.got == d && e.queue == Leftover(dev, |d|, b, rest)
  {
    hide ReadLoop;
    var queue := Packetize(Terminated(d, b, dev.mp), dev.mp) + rest;
    DeviceFaithful(dev);
    DeviceDiscards(dev);
    var e := ReadLoop(dev, DeviceReader(dev), |d|, 0, 0, true, queue, prog);
    LoopTerminated(dev, DeviceReader(dev), d, b, rest, |d|, 0, 0, prog, e);
  }

  /** After a header on its own, the payload is read in one call. */
  lemma HeaderAlone(dev: Device, h: seq<Byte>, n: nat, link: Link)
    requires |h| == HDR_LEN && n > 0 && HDR_LEN + n != dev.mp && link.response == []
    ensures var e := ReadFunc(dev, n, true, link.queue, link.prog);
      GetShortData(dev, h, HDR_LEN + n, link) == DataRead(e.ret, e.got, Link(e.queue, [], true, e.prog))
  {
    hide ReadFunc;
    var e := ReadFunc(dev, n, true, link.queue, link.prog);
    assert h[HDR_LEN..HDR_LEN] + e.got == e.got;
  }

  lemma FlaggedIsReady(dev: Device)
    requires Flagged(dev)
    ensures Ready(dev) && dev.noZeroReads
  {
  }
}
