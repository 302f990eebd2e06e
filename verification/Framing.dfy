/** However a device frames a data container and its response, both come out as they were sent. */
module Framing {
  import opened Bytes
  import opened Containers
  import opened TransferProgress
  import opened Usb
  import opened BulkRead
  import opened Packets
  import opened Phases

  /**
   Header and data in one transfer; a container of exactly one packet with no zero-length packet
   after it; header and data in transfers of their own; the response in the packet of the data.
   */
  datatype Style = Together | Bare | Split | Glued

  /** The response fits a packet, and the container suits the style. */
  predicate Fits(f: Style, c: seq<Byte>, resp: seq<Byte>, mp: PacketSize) {
    && |resp| <= mp
    && match f
       case Together => true
       case Bare => |c| == mp
       case Split => |c| > HDR_LEN
       case Glued => |c| + |resp| < mp
  }

  function Stream(f: Style, c: seq<Byte>, resp: seq<Byte>, mp: PacketSize): seq<Packet>
    requires |c| >= HDR_LEN
  {
    match f
    case Together => Packetize(c, mp) + [resp]
    case Bare => [c, resp]
    case Split => [c[..HDR_LEN]] + Packetize(c[HDR_LEN..], mp) + [resp]
    case Glued => [c + resp]
  }

  function DataContainer(code: int, trans: int, payload: seq<Byte>): (c: seq<Byte>)
    ensures |c| == HDR_LEN + |payload|
  {
    Header(HDR_LEN + |payload|, PTP_USB_CONTAINER_DATA, code, trans) + payload
  }

  function ResponseContainer(code: int, trans: int, params: seq<int>): (c: seq<Byte>)
    ensures |c| == HDR_LEN + 4 * |params|
  {
    Header(HDR_LEN + 4 * |params|, PTP_USB_CONTAINER_RESPONSE, code, trans) + Words(params)
  }

  /** Packet sizes that the protocol can be run over: a header fits a packet, a packet the structure. */
  ghost predicate Ready(dev: Device) {
    dev.cancels == {} && Sane(dev.mp) && HDR_LEN < dev.mp <= CONTAINER_SIZE
  }

  /** A device without quirk flags, whichever its vendor. */
  ghost predicate Usable(dev: Device) {
    Ready(dev) && !dev.noZeroReads && !dev.ignoreHeaderErrors
  }

  // ----- one packet, and the rest of a transfer

  lemma OneTurn(dev: Device, p: Packet, rest: seq<Packet>, a: Asked, prog: Progress)
    requires dev.cancels == {} && |p| <= dev.mp && a.toread == dev.mp && !a.terminator
    ensures var t := DeviceReader(dev)(a, [p] + rest, prog);
      t.ret == OK && t.data == p && t.queue == rest
  {
    assert ([p] + rest)[0] == p && ([p] + rest)[1..] == rest;
  }

  lemma OneTurnLoop(dev: Device, reader: Reader, p: Packet, queue: seq<Packet>, rest: seq<Packet>, prog: Progress,
    e: ReadEnd)
    requires Ready(dev)
    requires e == ReadLoop(dev, reader, dev.mp, 0, 0, false, queue, prog)
    requires var t := reader(Asked(dev.mp, dev.mp, false), queue, prog);
      t.ret == OK && t.data == p && t.queue == rest
    ensures e.ret == OK && e.got == p && e.queue == rest
  {
    var a := NextRequest(dev, dev.mp, 0, 0, false);
    assert a == Asked(dev.mp, dev.mp, false);
    var t := reader(a, queue, prog);
    assert Plausible(a, queue, t);
    if t.more {
      assert e.got == p + [] == p;
    }
  }

  lemma OnePacket(dev: Device, p: Packet, rest: seq<Packet>, link: Link, r: PacketRead)
    requires Ready(dev) && link.response == [] && link.queue == [p] + rest && |p| <= dev.mp
    requires r == GetPacket(dev, link)
    ensures r.ret == OK && r.packet == p && r.link.queue == rest
    ensures r.link.split == link.split && r.link.response == []
  {
    OneTurn(dev, p, rest, Asked(dev.mp, dev.mp, false), link.prog);
    var e := ReadLoop(dev, DeviceReader(dev), dev.mp, 0, 0, false, link.queue, link.prog);
    OneTurnLoop(dev, DeviceReader(dev), p, link.queue, rest, link.prog, e);
  }

  /** Reading until the transfer ends takes all of it. */
  lemma {:induction false} DrainCollects(dev: Device, d: seq<Byte>, rest: seq<Packet>, link: Link, r: PacketRead)
    requires Usable(dev) && link.queue == Packetize(d, dev.mp) + rest
    requires r == Drain(dev, link)
    ensures r.ret == OK && r.packet == d && r.link.queue == rest
    ensures r.link.split == link.split && r.link.response == link.response
    decreases |d|
  {
    DeviceFaithful(dev);
    var e := ReadLoop(dev, DeviceReader(dev), LONG_READ, 0, 0, false, link.queue, link.prog);
    LoopCollects(dev, DeviceReader(dev), d, rest, LONG_READ, 0, 0, false, link.prog, e);
    if |d| >= LONG_READ {
      BlocksArePackets(LONG_READ, dev.mp);
      var link' := link.(queue := e.queue, prog := e.prog);
      DrainCollects(dev, d[LONG_READ..], rest, link', Drain(dev, link'));
      JoinSlices(d, LONG_READ, |d|);
    }
  }

  /** Reading exactly the payload takes it, and the zero-length packet behind it if there is one. */
  lemma PayloadCollects(dev: Device, d: seq<Byte>, rest: seq<Packet>, prog: Progress)
    requires Usable(dev) && d != []
    ensures var e := ReadFunc(dev, |d|, true, Packetize(d, dev.mp) + rest, prog);
      e.ret == OK && e.got == d && e.queue == rest
  {
    DeviceFaithful(dev);
    PayloadLoop(dev, DeviceReader(dev), d, rest, prog);
  }

  lemma PayloadLoop(dev: Device, reader: Reader, d: seq<Byte>, rest: seq<Packet>, prog: Progress)
    requires Plain(dev) && Faithful(reader, dev.mp) && d != []
    ensures var e := ReadZero(dev, true, ReadLoop(dev, reader, |d|, 0, 0, true, Packetize(d, dev.mp) + rest, prog));
      e.ret == OK && e.got == d && e.queue == rest
  {
    var loop := ReadLoop(dev, reader, |d|, 0, 0, true, Packetize(d, dev.mp) + rest, prog);
    LoopCollects(dev, reader, d, rest, |d|, 0, 0, true, prog, loop);
    PayloadEnd(dev, d, rest, loop);
  }

  lemma PayloadEnd(dev: Device, d: seq<Byte>, rest: seq<Packet>, loop: ReadEnd)
    requires Plain(dev) && Collected(loop, d, rest, |d|, dev.mp)
    ensures var e := ReadZero(dev, true, loop); e.ret == OK && e.got == d && e.queue == rest
  {
    assert d[..|d|] == d && d[|d|..] == [];
    if |d| % dev.mp == 0 {
      assert loop.queue == [[]] + rest;
      assert loop.queue[0] == [] && loop.queue[1..] == rest;
    }
  }

  // ----- the data phase

  /** After the data phase only the response is left: next in the queue, behind a zero-length packet, or kept back. */
  ghost predicate AwaitsResponse(link: Link, resp: seq<Byte>, rest: seq<Packet>) {
    || (link.response == [] && link.queue == [resp] + rest)
    || (link.response == [] && link.queue == [[], resp] + rest)
    || (link.response == resp && link.queue == rest)
  }

  ghost predicate DataIs(d: DataRead, payload: seq<Byte>, resp: seq<Byte>, rest: seq<Packet>) {
    d.ret == OK && d.data == payload && AwaitsResponse(d.link, resp, rest)
  }

  /** What the first packet says, if it starts with the header. */
  lemma FirstPacket(packet: seq<Byte>, code: int, trans: int, payload: seq<Byte>, tail: seq<Byte>)
    requires Is16(code) && Is32(trans) && Is32(HDR_LEN + |payload|)
    requires packet == Header(HDR_LEN + |payload|, PTP_USB_CONTAINER_DATA, code, trans) + tail
    ensures var s := Overlay(Zeroed(), packet);
      Get32(s, 0) == HDR_LEN + |payload| && Get16(s, 4) == PTP_USB_CONTAINER_DATA && Get16(s, 6) == code
  {
    var pad := if |packet| < CONTAINER_SIZE then Zeroed()[|packet|..] else [];
    assert Overlay(Zeroed(), packet) == Header(HDR_LEN + |payload|, PTP_USB_CONTAINER_DATA, code, trans) + (tail + pad);
    HeaderFields(HDR_LEN + |payload|, PTP_USB_CONTAINER_DATA, code, trans, tail + pad);
  }

  ghost predicate IsPayload(code: int, trans: int, payload: seq<Byte>) {
    Is16(code) && Is32(trans) && Is32(HDR_LEN + |payload|)
  }

  /** A first packet that starts with the header is taken as a data packet of the announced length. */
  lemma Dispatch(dev: Device, code: int, trans: int, payload: seq<Byte>, tail: seq<Byte>, rest: seq<Packet>,
    link: Link, r: PacketRead)
    requires Ready(dev) && IsPayload(code, trans, payload) && link.response == []
    requires var packet := Header(HDR_LEN + |payload|, PTP_USB_CONTAINER_DATA, code, trans) + tail;
      |packet| <= dev.mp && link.queue == [packet] + rest
    requires r == GetPacket(dev, link)
    ensures r.link.queue == rest && r.link.response == [] && r.link.split == link.split
    ensures r.packet == Header(HDR_LEN + |payload|, PTP_USB_CONTAINER_DATA, code, trans) + tail
    ensures GetData(dev, code, link) ==
      if |r.packet| == dev.mp then GetLongData(dev, r.packet, HDR_LEN + |payload|, r.link)
      else GetShortData(dev, r.packet, HDR_LEN + |payload|, r.link)
  {
    var packet := Header(HDR_LEN + |payload|, PTP_USB_CONTAINER_DATA, code, trans) + tail;
    OnePacket(dev, packet, rest, link, r);
    FirstPacket(packet, code, trans, payload, tail);
  }

  lemma TogetherData(dev: Device, code: int, trans: int, payload: seq<Byte>, resp: seq<Byte>, rest: seq<Packet>,
    link: Link)
    requires Usable(dev) && IsPayload(code, trans, payload) && link.response == []
    requires link.queue == Packetize(DataContainer(code, trans, payload), dev.mp) + [resp] + rest
    ensures DataIs(GetData(dev, code, link), payload, resp, rest)
  {
    hide GetData, GetPacket, GetLongData, ReadFunc;
    var c := DataContainer(code, trans, payload);
    if |c| < dev.mp {
      assert link.queue == [c] + ([resp] + rest);
      Dispatch(dev, code, trans, payload, payload, [resp] + rest, link, GetPacket(dev, link));
      assert c[HDR_LEN..|c|] == payload && c[|c|..] == [];
    } else {
      LongData(dev, code, trans, payload, resp, rest, link);
    }
  }

  lemma LongData(dev: Device, code: int, trans: int, payload: seq<Byte>, resp: seq<Byte>, rest: seq<Packet>, link: Link)
    requires Usable(dev) && IsPayload(code, trans, payload) && link.response == []
    requires HDR_LEN + |payload| >= dev.mp
    requires link.queue == Packetize(DataContainer(code, trans, payload), dev.mp) + [resp] + rest
    ensures DataIs(GetData(dev, code, link), payload, resp, rest)
  {
    var c, mp := DataContainer(code, trans, payload), dev.mp;
    var first, later := payload[..mp - HDR_LEN], Packetize(c[mp..], mp) + ([resp] + rest);
    assert c[..mp] == Header(HDR_LEN + |payload|, PTP_USB_CONTAINER_DATA, code, trans) + first;
    assert c[mp..] == payload[mp - HDR_LEN..];
    assert link.queue == [c[..mp]] + later;
    var r := GetPacket(dev, link);
    Dispatch(dev, code, trans, payload, first, later, link, r);
    assert r.packet[HDR_LEN..] == first;
    if |c| == mp {
      assert c[mp..] == [] && first == payload;
      assert later == [[], resp] + rest;
    } else {
      DrainCollects(dev, c[mp..], [resp] + rest, r.link, Drain(dev, r.link));
      assert first + c[mp..] == payload;
    }
  }

  lemma BareData(dev: Device, code: int, trans: int, payload: seq<Byte>, resp: seq<Byte>, rest: seq<Packet>, link: Link)
    requires Usable(dev) && IsPayload(code, trans, payload) && link.response == []
    requires HDR_LEN + |payload| == dev.mp
    requires link.queue == [DataContainer(code, trans, payload), resp] + rest
    ensures DataIs(GetData(dev, code, link), payload, resp, rest)
  {
    var c := DataContainer(code, trans, payload);
    assert link.queue == [c] + ([resp] + rest);
    Dispatch(dev, code, trans, payload, payload, [resp] + rest, link, GetPacket(dev, link));
    assert c[HDR_LEN..] == payload;
  }

  lemma SplitData(dev: Device, code: int, trans: int, payload: seq<Byte>, resp: seq<Byte>, rest: seq<Packet>,
    link: Link)
    requires Usable(dev) && IsPayload(code, trans, payload) && link.response == [] && payload != []
    requires link.queue == [DataContainer(code, trans, payload)[..HDR_LEN]] + Packetize(payload, dev.mp) + [resp] + rest
    ensures DataIs(GetData(dev, code, link), payload, resp, rest)
    ensures GetData(dev, code, link).link.split
  {
    var h := Header(HDR_LEN + |payload|, PTP_USB_CONTAINER_DATA, code, trans);
    assert DataContainer(code, trans, payload)[..HDR_LEN] == h == h + [];
    var later := Packetize(payload, dev.mp) + ([resp] + rest);
    assert link.queue == [h] + later;
    var r := GetPacket(dev, link);
    Dispatch(dev, code, trans, payload, [], later, link, r);
    PayloadCollects(dev, payload, [resp] + rest, r.link.prog);
    assert h[HDR_LEN..] == [] && [] + payload == payload;
  }

  lemma GluedData(dev: Device, code: int, trans: int, payload: seq<Byte>, resp: seq<Byte>, rest: seq<Packet>,
    link: Link)
    requires Usable(dev) && IsPayload(code, trans, payload) && link.response == []
    requires HDR_LEN + |payload| + |resp| < dev.mp && |resp| >= HDR_LEN
    requires link.queue == [DataContainer(code, trans, payload) + resp] + rest
    ensures DataIs(GetData(dev, code, link), payload, resp, rest)
  {
    var c := DataContainer(code, trans, payload);
    var h := Header(HDR_LEN + |payload|, PTP_USB_CONTAINER_DATA, code, trans);
    assert c + resp == h + (payload + resp);
    Dispatch(dev, code, trans, payload, payload + resp, rest, link, GetPacket(dev, link));
    assert (c + resp)[|c|..] == resp && (c + resp)[HDR_LEN..|c|] == payload;
  }

  /**
   A response in the data's packet is found if and only if it leaves the packet short: a full packet
   is taken for the first of a longer transfer.
   */
  lemma GluedExactly(dev: Device, code: int, trans: int, payload: seq<Byte>, resp: seq<Byte>, rest: seq<Packet>,
    link: Link)
    requires Usable(dev) && IsPayload(code, trans, payload) && link.response == []
    requires HDR_LEN + |payload| + |resp| <= dev.mp && |resp| >= HDR_LEN
    requires link.queue == [DataContainer(code, trans, payload) + resp] + rest
    ensures DataIs(GetData(dev, code, link), payload, resp, rest) <==> HDR_LEN + |payload| + |resp| < dev.mp
  {
    hide GetPacket, Drain, GetData, GetShortData;
    if HDR_LEN + |payload| + |resp| < dev.mp {
      GluedData(dev, code, trans, payload, resp, rest, link);
    } else {
      var c := DataContainer(code, trans, payload);
      var h := Header(HDR_LEN + |payload|, PTP_USB_CONTAINER_DATA, code, trans);
      assert c + resp == h + (payload + resp);
      var r := GetPacket(dev, link);
      Dispatch(dev, code, trans, payload, payload + resp, rest, link, r);
      assert |GetLongData(dev, r.packet, HDR_LEN + |payload|, r.link).data| > |payload|;
    }
  }

  // ----- the response phase

  ghost predicate IsResponse(code: int, trans: int, params: seq<int>) {
    Is16(code) && Is32(trans) && |params| <= 5 && forall p :: p in params ==> Is32(p)
  }

  /** The parameters, and zeros for those that were not sent. */
  function Padded(params: seq<int>): seq<int>
    requires |params| <= 5
  {
    params + [0, 0, 0, 0, 0][|params|..]
  }

  lemma ParamsRead(code: int, trans: int, params: seq<int>, s: seq<Byte>)
    requires IsResponse(code, trans, params)
    requires s == Overlay(Zeroed(), ResponseContainer(code, trans, params))
    ensures Params(s) == Padded(params)
  {
    var h := Header(HDR_LEN + 4 * |params|, PTP_USB_CONTAINER_RESPONSE, code, trans);
    var pad := Zeroed()[HDR_LEN + 4 * |params|..];
    assert s == h + Words(params) + pad;
    forall i: nat | i < 5 ensures Params(s)[i] == Padded(params)[i] {
      if i < |params| {
        WordAt(h, params, pad, i);
      } else {
        var at := HDR_LEN + 4 * i;
        assert s[at] == 0 && s[at + 1] == 0 && s[at + 2] == 0 && s[at + 3] == 0;
      }
    }
  }

  /** The packet that the response phase reads first is the response, or empty with the response behind it. */
  ghost predicate ResponseComes(p: PacketRead, resp: seq<Byte>, rest: seq<Packet>) {
    && p.ret == OK && p.link.response == []
    && ((p.packet == resp && p.link.queue == rest) || (p.packet == [] && p.link.queue == [resp] + rest))
  }

  lemma FirstAndLater(resp: seq<Byte>, rest: seq<Packet>, link: Link) returns (first: Packet, later: seq<Packet>)
    requires AwaitsResponse(link, resp, rest) && link.response == [] && resp != []
    ensures link.queue == [first] + later
    ensures (first == resp && later == rest) || (first == [] && later == [resp] + rest)
  {
    if link.queue == [resp] + rest {
      first, later := resp, rest;
    } else {
      first, later := [], [resp] + rest;
      assert [[], resp] + rest == [[]] + ([resp] + rest);
    }
  }

  lemma FirstRead(dev: Device, resp: seq<Byte>, rest: seq<Packet>, link: Link, p: PacketRead)
    requires Usable(dev) && HDR_LEN <= |resp| <= dev.mp
    requires AwaitsResponse(link, resp, rest)
    requires p == GetPacket(dev, link)
    ensures ResponseComes(p, resp, rest)
  {
    if link.response == [] {
      var first, later := FirstAndLater(resp, rest, link);
      OnePacket(dev, first, later, link, p);
    }
  }

  /** Whatever stands in front of it, the response is the next packet that counts. */
  lemma NextIsResponse(dev: Device, resp: seq<Byte>, rest: seq<Packet>, p: PacketRead, r: PacketRead)
    requires Usable(dev) && HDR_LEN <= |resp| <= dev.mp
    requires ResponseComes(p, resp, rest)
    requires r == NextResponse(dev, Zeroed(), p)
    ensures r.ret == OK && r.packet == Overlay(Zeroed(), resp)
    ensures r.link.queue == rest && r.link.response == []
  {
    if p.packet == [] {
      assert Overlay(Zeroed(), []) == Zeroed();
      assert Get32(Zeroed(), 0) == 0;
      OnePacket(dev, resp, rest, p.link, GetPacket(dev, p.link));
    }
  }

  ghost predicate ResponseIs(r: RespRead, asked: int, code: int, trans: int, params: seq<int>, rest: seq<Packet>)
    requires |params| <= 5
  {
    && r.link.queue == rest && r.link.response == []
    && (if code == PTP_RC_OK || code == asked then r.ret == OK && r.resp == Response(code, trans, Padded(params))
        else r.ret == Code(code))
  }

  lemma ResponseRead(dev: Device, asked: int, lastTrans: int, code: int, trans: int, params: seq<int>,
    rest: seq<Packet>, link: Link)
    requires Usable(dev) && IsResponse(code, trans, params) && HDR_LEN + 4 * |params| <= dev.mp
    requires AwaitsResponse(link, ResponseContainer(code, trans, params), rest)
    ensures ResponseIs(GetResp(dev, asked, lastTrans, link), asked, code, trans, params, rest)
  {
    var resp := ResponseContainer(code, trans, params);
    var p := GetPacket(dev, link);
    FirstRead(dev, resp, rest, link, p);
    var r := NextResponse(dev, Zeroed(), p);
    NextIsResponse(dev, resp, rest, p, r);
    Decodes(dev, asked, lastTrans, code, trans, params, rest, r);
  }

  lemma Decodes(dev: Device, asked: int, lastTrans: int, code: int, trans: int, params: seq<int>, rest: seq<Packet>,
    r: PacketRead)
    requires Usable(dev) && IsResponse(code, trans, params)
    requires r.ret == OK && r.packet == Overlay(Zeroed(), ResponseContainer(code, trans, params))
    requires r.link.queue == rest && r.link.response == []
    ensures ResponseIs(Decode(dev, asked, lastTrans, r), asked, code, trans, params, rest)
  {
    var resp := ResponseContainer(code, trans, params);
    ParamsRead(code, trans, params, r.packet);
    var tail := Words(params) + Zeroed()[|resp|..];
    assert r.packet == Header(HDR_LEN + 4 * |params|, PTP_USB_CONTAINER_RESPONSE, code, trans) + tail;
    HeaderFields(HDR_LEN + 4 * |params|, PTP_USB_CONTAINER_RESPONSE, code, trans, tail);
  }

  /**
   For a device without quirks the two phases hand on exactly the payload and the response that
   was sent, however the device framed them, and leave the rest of the stream untouched.
   */
  lemma Exchange(dev: Device, f: Style, link: Link, rest: seq<Packet>, code: int, trans: int, payload: seq<Byte>,
    lastTrans: int, rcode: int, rtrans: int, params: seq<int>)
    requires Usable(dev) && IsPayload(code, trans, payload) && IsResponse(rcode, rtrans, params)
    requires Fits(f, DataContainer(code, trans, payload), ResponseContainer(rcode, rtrans, params), dev.mp)
    requires link.response == []
    requires link.queue ==
      Stream(f, DataContainer(code, trans, payload), ResponseContainer(rcode, rtrans, params), dev.mp) + rest
    ensures var d := GetData(dev, code, link);
      && d.ret == OK && d.data == payload
      && ResponseIs(GetResp(dev, code, lastTrans, d.link), code, rcode, rtrans, params, rest)
  {
    var c, resp := DataContainer(code, trans, payload), ResponseContainer(rcode, rtrans, params);
    match f {
      case Together => TogetherData(dev, code, trans, payload, resp, rest, link);
      case Bare => BareData(dev, code, trans, payload, resp, rest, link);
      case Split =>
        assert c[HDR_LEN..] == payload;
        SplitData(dev, code, trans, payload, resp, rest, link);
      case Glued => GluedData(dev, code, trans, payload, resp, rest, link);
    }
    ResponseRead(dev, code, lastTrans, rcode, rtrans, params, rest, GetData(dev, code, link).link);
  }

  /**
   A response that the device ends like any transfer is read completely if and only if it is shorter
   than a packet: the phase reads one packet, so a full one leaves its end on the queue.
   */
  lemma ResponseExactly(dev: Device, asked: int, lastTrans: int, code: int, trans: int, params: seq<int>,
    rest: seq<Packet>, link: Link)
    requires Usable(dev) && IsResponse(code, trans, params) && link.response == []
    requires link.queue == Packetize(ResponseContainer(code, trans, params), dev.mp) + rest
    ensures GetResp(dev, asked, lastTrans, link).link.queue == rest <==> HDR_LEN + 4 * |params| < dev.mp
    ensures HDR_LEN + 4 * |params| < dev.mp ==>
      ResponseIs(GetResp(dev, asked, lastTrans, link), asked, code, trans, params, rest)
  {
    hide GetPacket;
    var resp := ResponseContainer(code, trans, params);
    if |resp| < dev.mp {
      assert Packetize(resp, dev.mp) == [resp];
      ResponseRead(dev, asked, lastTrans, code, trans, params, rest, link);
    } else {
      var later := Packetize(resp[dev.mp..], dev.mp) + rest;
      assert link.queue == [resp[..dev.mp]] + later;
      OnePacket(dev, resp[..dev.mp], later, link, GetPacket(dev, link));
      assert |later| > |rest|;
    }
  }
}
