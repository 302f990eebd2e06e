/** How a device cuts data into packets, and that the read calls put it together again. */
module Packets {
  import opened Bytes
  import opened TransferProgress
  import opened Usb
  import opened BulkRead

  /** The packets of one transfer: full ones, then a short one, which is empty if nothing is left. */
  function Packetize(d: seq<Byte>, mp: PacketSize): (q: seq<Packet>)
    ensures q != []
  {
    if |d| < mp then [d] else [d[..mp]] + Packetize(d[mp..], mp)
  }

  /**
   A device without quirk flags, and a user who does not cancel. The devices that are read in two
   alternating block sizes are told by their vendor id and carry no flag; their packets are at most
   0x400 bytes, the size that the second block is adapted to.
   */
  ghost predicate Plain(dev: Device) {
    && !dev.noZeroReads && !dev.ignoreHeaderErrors && dev.cancels == {}
    && Sane(dev.mp) && (dev.iriver ==> dev.mp <= 0x400)
  }

  /** Every request but the last is a whole number of packets. */
  lemma RequestWhole(dev: Device, size: nat, cur: nat, prev: nat, readzero: bool)
    requires Plain(dev) && cur < size && Steady(dev, size, cur, prev)
    ensures var a := NextRequest(dev, size, cur, prev, readzero);
      !a.terminator && (a.toread == a.left || a.toread % dev.mp == 0)
  {
    BlockWhole(dev, size, cur, prev, readzero);
  }

  lemma BlockWhole(dev: Device, size: nat, cur: nat, prev: nat, readzero: bool)
    requires Sane(dev.mp) && (dev.iriver ==> dev.mp <= 0x400) && cur < size && Steady(dev, size, cur, prev)
    ensures var a := NextRequest(dev, size, cur, prev, readzero);
      a.left >= CONTEXT_BLOCK_SIZE ==> !a.terminator && a.toread % dev.mp == 0 && (dev.iriver ==> a.toread < a.left)
  {
    if dev.iriver {
      SmallPackets(dev.mp);
      Multiple(15, 0x400, dev.mp);
      if dev.mp != 0x400 {
        Multiple(31, 0x200, dev.mp);
      }
    }
  }

  /** The queue once `n` bytes of the data were read. */
  function After(d: seq<Byte>, n: nat, rest: seq<Packet>, mp: PacketSize): seq<Packet>
    requires n <= |d|
  {
    if n % mp == 0 then Packetize(d[n..], mp) + rest else rest
  }

  /** A request for more than the transfer holds ends with its short packet. */
  lemma {:induction false} GatherShort(d: seq<Byte>, rest: seq<Packet>, n: nat, mp: PacketSize, t: Transfer)
    requires |d| < n && t == Gather(Packetize(d, mp) + rest, n, mp)
    ensures t == Transfer(OK, d, rest)
  {
    var q := Packetize(d, mp) + rest;
    if |d| < mp {
      assert q[0] == d && q[1..] == rest;
    } else {
      assert q[0] == d[..mp] && q[1..] == Packetize(d[mp..], mp) + rest;
      GatherShort(d[mp..], rest, n - mp, mp, Gather(q[1..], n - mp, mp));
      JoinSlices(d, mp, |d|);
    }
  }

  /** A request for a whole number of packets that are there is filled. */
  lemma {:induction false} GatherPackets(d: seq<Byte>, rest: seq<Packet>, n: nat, mp: PacketSize, t: Transfer)
    requires 0 < n <= |d| && n % mp == 0
    requires t == Gather(Packetize(d, mp) + rest, n, mp)
    ensures t == Transfer(OK, d[..n], Packetize(d[n..], mp) + rest)
    decreases |d|
  {
    WholePackets(n, mp);
    var first, q := d[..mp], Packetize(d[mp..], mp) + rest;
    assert Packetize(d, mp) + rest == [first] + q;
    if n > mp {
      GatherPackets(d[mp..], rest, n - mp, mp, Gather(q, n - mp, mp));
      JoinSlices(d, mp, n);
    }
  }

  lemma WholePackets(n: nat, mp: PacketSize)
    requires 0 < n && n % mp == 0
    ensures n >= mp && (n - mp) % mp == 0
  {
    SubMod(n, mp, mp);
  }

  lemma JoinSlices<T>(d: seq<T>, m: nat, n: nat)
    requires m <= n <= |d|
    ensures d[..m] + d[m..][..n - m] == d[..n]
    ensures d[m..][n - m..] == d[n..]
    ensures d[..m] + d[m..] == d
  {
  }

  /** A request for exactly the data, the last packet being short, is filled. */
  lemma {:induction false} GatherAll(d: seq<Byte>, rest: seq<Packet>, mp: PacketSize, t: Transfer)
    requires |d| % mp != 0
    requires t == Gather(Packetize(d, mp) + rest, |d|, mp)
    ensures t == Transfer(OK, d, rest)
    decreases |d|
  {
    var q := Packetize(d, mp) + rest;
    if |d| < mp {
      assert q[0] == d && q[1..] == rest;
    } else {
      assert q[0] == d[..mp] && q[1..] == Packetize(d[mp..], mp) + rest;
      SubMod(|d|, mp, mp);
      GatherAll(d[mp..], rest, mp, Gather(q[1..], |d| - mp, mp));
      JoinSlices(d, mp, |d|);
    }
  }

  ghost predicate Faithful(reader: Reader, mp: PacketSize) {
    forall a: Asked, d: seq<Byte>, rest: seq<Packet>, prog: Progress :: a.toread > 0 && !a.terminator ==>
      Turns(reader(a, Packetize(d, mp) + rest, prog), d, rest, a.toread, mp)
  }

  ghost predicate Turns(t: Turn, d: seq<Byte>, rest: seq<Packet>, n: nat, mp: PacketSize) {
    if |d| < n then t.ret == OK && !t.more && t.data == d && t.queue == rest
    else n % mp == 0 || n == |d| ==> t.ret == OK && t.more && t.data == d[..n] && t.queue == After(d, n, rest, mp)
  }

  lemma DeviceFaithful(dev: Device)
    requires dev.cancels == {}
    ensures Faithful(DeviceReader(dev), dev.mp)
  {
    forall a: Asked, d: seq<Byte>, rest: seq<Packet>, prog: Progress | a.toread > 0 && !a.terminator
      ensures Turns(DeviceReader(dev)(a, Packetize(d, dev.mp) + rest, prog), d, rest, a.toread, dev.mp)
    {
      var t := Gather(Packetize(d, dev.mp) + rest, a.toread, dev.mp);
      if |d| < a.toread {
        GatherShort(d, rest, a.toread, dev.mp, t);
      } else if a.toread % dev.mp == 0 || a.toread == |d| {
        if a.toread % dev.mp == 0 {
          GatherPackets(d, rest, a.toread, dev.mp, t);
        } else {
          GatherAll(d, rest, dev.mp, t);
          assert d[..|d|] == d;
        }
      }
    }
  }

  /** What reading up to `n` bytes of a transfer comes to. */
  ghost predicate Collected(e: ReadEnd, d: seq<Byte>, rest: seq<Packet>, n: nat, mp: PacketSize) {
    if |d| < n then e.ret == OK && e.got == d && e.queue == rest
    else n % mp == 0 || n == |d| ==> e.ret == OK && e.got == d[..n] && e.queue == After(d, n, rest, mp)
  }

  lemma CollectedCons(a: Asked, t: Turn, e: ReadEnd, d: seq<Byte>, rest: seq<Packet>, n: nat, mp: PacketSize)
    requires 0 < a.toread < n && a.toread % mp == 0 && a.toread <= |d|
    requires t.data == d[..a.toread]
    requires Collected(e, d[a.toread..], rest, n - a.toread, mp)
    ensures Collected(ReadEnd(e.ret, t.data + e.got, e.queue, e.prog, [a] + e.asked), d, rest, n, mp)
  {
    var k := a.toread;
    JoinSlices(d, k, |d|);
    if n <= |d| {
      JoinSlices(d, k, n);
      SubMod(n, k, mp);
    }
  }

  /** The read loop takes a transfer in order and leaves the queue behind it. */
  lemma {:induction false} LoopCollects(dev: Device, reader: Reader, d: seq<Byte>, rest: seq<Packet>, size: nat,
    cur: nat, prev: nat, readzero: bool, prog: Progress, e: ReadEnd)
    requires Plain(dev) && Faithful(reader, dev.mp) && cur < size && Steady(dev, size, cur, prev)
    requires e == ReadLoop(dev, reader, size, cur, prev, readzero, Packetize(d, dev.mp) + rest, prog)
    ensures Collected(e, d, rest, size - cur, dev.mp)
    decreases |d|
  {
    hide Packetize, Faithful;
    var n := size - cur;
    var a := NextRequest(dev, size, cur, prev, readzero);
    var t := reader(a, Packetize(d, dev.mp) + rest, prog);
    RequestWhole(dev, size, cur, prev, readzero);
    FaithfulTurn(reader, dev.mp, a, d, rest, prog);
    if a.toread <= |d| && (a.toread % dev.mp == 0 || n == |d|) {
      var e' := ReadLoop(dev, reader, size, cur + a.toread, a.toread, readzero, t.queue, t.prog);
      assert e == ReadEnd(e'.ret, t.data + e'.got, e'.queue, e'.prog, [a] + e'.asked);
      if a.toread < n {
        LoopCollects(dev, reader, d[a.toread..], rest, size, cur + a.toread, a.toread, readzero, t.prog, e');
        CollectedCons(a, t, e', d, rest, n, dev.mp);
      } else {
        assert e'.got == [] && t.data + [] == t.data;
      }
    }
  }

  lemma FaithfulTurn(reader: Reader, mp: PacketSize, a: Asked, d: seq<Byte>, rest: seq<Packet>, prog: Progress)
    requires Faithful(reader, mp) && a.toread > 0 && !a.terminator
    ensures Turns(reader(a, Packetize(d, mp) + rest, prog), d, rest, a.toread, mp)
  {
  }

  lemma BlocksArePackets(k: nat, mp: nat)
    requires Sane(mp) && k % CONTEXT_BLOCK_SIZE == 0
    ensures k % mp == 0
  {
    var q := k / CONTEXT_BLOCK_SIZE;
    var r := CONTEXT_BLOCK_SIZE / mp;
    assert k == q * (r * mp) == q * r * mp;
    MulMod(q * r, mp);
  }
}
