/** The data and response phases where something is amiss: nothing comes, the wrong thing comes, or the flag is set. */
module PhaseCases {
  import opened Bytes
  import opened Containers
  import opened TransferProgress
  import opened Usb
  import opened BulkRead
  import opened Phases
  import opened Framing

  // ----- the first packet does not come

  /** Nothing more comes, or more than a packet, or the user cancels at the report of the first packet. */
  ghost predicate NoPacket(dev: Device, link: Link) {
    && link.response == []
    && (|| link.queue == []
        || |link.queue[0]| > dev.mp
        || (link.prog.active && link.prog.callback && |link.prog.reported| in dev.cancels))
  }

  lemma PacketFails(dev: Device, link: Link)
    requires NoPacket(dev, link) && Sane(dev.mp)
    ensures GetPacket(dev, link).ret != OK
  {
    var a := NextRequest(dev, dev.mp, 0, 0, false);
    var t := ReadTurn(dev, a, link.queue, link.prog);
    assert a.toread <= dev.mp;
    assert t.ret != OK;
    LoopFails(dev, DeviceReader(dev), a, t, link);
  }

  lemma LoopFails(dev: Device, reader: Reader, a: Asked, t: Turn, link: Link)
    requires a == NextRequest(dev, dev.mp, 0, 0, false) && t == reader(a, link.queue, link.prog) && t.ret != OK
    ensures ReadLoop(dev, reader, dev.mp, 0, 0, false, link.queue, link.prog).ret != OK
  {
    assert Plausible(a, link.queue, t);
  }

  /** Without a first packet both phases end with an I/O error, and the caller gets nothing. */
  lemma NothingCame(dev: Device, code: int, lastTrans: int, link: Link)
    requires NoPacket(dev, link) && Sane(dev.mp)
    ensures var d := GetData(dev, code, link); d.ret == IOError && d.data == [] && d.link.response == []
    ensures var r := GetResp(dev, code, lastTrans, link); r.ret == IOError && r.resp == Response(code, 0, [])
  {
    hide GetPacket;
    PacketFails(dev, link);
  }

  // ----- something else comes

  /** A first packet that starts with a header. */
  ghost predicate Comes(dev: Device, link: Link, length: int, kind: int, got: int, trans: int, tail: seq<Byte>,
    rest: seq<Packet>) {
    && Ready(dev) && Is32(length) && Is16(kind) && Is16(got) && Is32(trans)
    && link.response == [] && 12 + |tail| <= dev.mp
    && link.queue == [Header(length, kind, got, trans) + tail] + rest
  }

  lemma ComesFirst(dev: Device, link: Link, length: int, kind: int, got: int, trans: int, tail: seq<Byte>,
    rest: seq<Packet>, r: PacketRead, s: seq<Byte>)
    requires Comes(dev, link, length, kind, got, trans, tail, rest) && r == GetPacket(dev, link)
    requires s == Overlay(Zeroed(), Header(length, kind, got, trans) + tail)
    ensures r.ret == OK && r.packet == Header(length, kind, got, trans) + tail
    ensures r.link.queue == rest && r.link.response == []
    ensures Get32(s, 0) == length && Get16(s, 4) == kind && Get16(s, 6) == got && Get32(s, 8) == trans
  {
    var packet := Header(length, kind, got, trans) + tail;
    OnePacket(dev, packet, rest, link, r);
    var pad := Zeroed()[|packet|..];
    assert Overlay(Zeroed(), packet) == Header(length, kind, got, trans) + (tail + pad);
    HeaderFields(length, kind, got, trans, tail + pad);
  }

  /**
   Another container where data was due, or data for another operation, is used up and handed to nobody;
   a response code in place of the operation is passed on. With headers ignored only the kind counts.
   */
  lemma DataRejected(dev: Device, code: int, length: int, kind: int, got: int, trans: int, tail: seq<Byte>,
    rest: seq<Packet>, link: Link)
    requires Comes(dev, link, length, kind, got, trans, tail, rest)
    requires kind != 2 || (got != code && !dev.ignoreHeaderErrors)
    ensures var d := GetData(dev, code, link);
      && d.data == [] && d.link.queue == rest && d.link.response == []
      && d.ret == if kind != 2 then DataExpected else if 0x2000 <= got <= 0x2020 then Code(got) else IOError
  {
    hide GetPacket;
    ComesFirst(dev, link, length, kind, got, trans, tail, rest, GetPacket(dev, link),
      Overlay(Zeroed(), Header(length, kind, got, trans) + tail));
  }

  /** With headers ignored, the operation asked for makes no difference to the data phase. */
  lemma AnyOperation(dev: Device, code: int, other: int, link: Link)
    requires dev.ignoreHeaderErrors
    ensures GetData(dev, code, link) == GetData(dev, other, link)
  {
    hide GetPacket, GetLongData, GetShortData;
  }

  /**
   A response phase that gets a container with a header: another kind, or a code that is neither the one
   asked for nor success, is named and nothing handed out; otherwise the code is, with the transaction of
   the header, or of the session if headers are ignored.
   */
  lemma ResponseDecided(dev: Device, asked: int, lastTrans: int, length: int, kind: int, got: int, trans: int,
    tail: seq<Byte>, rest: seq<Packet>, link: Link)
    requires Comes(dev, link, length, kind, got, trans, tail, rest)
    ensures var r := GetResp(dev, asked, lastTrans, link);
      && r.link.queue == rest && r.link.response == []
      && (kind != 3 ==> r.ret == RespExpected && r.resp == Response(asked, 0, []))
      && (kind == 3 && got != asked && got != 0x2001 ==> r.ret == Code(got) && r.resp == Response(asked, 0, []))
      && (kind == 3 && (got == asked || got == 0x2001) ==>
            && r.ret == OK && r.resp.code == got
            && r.resp.trans == if dev.ignoreHeaderErrors then lastTrans else trans)
  {
    hide GetPacket, Params;
    ComesFirst(dev, link, length, kind, got, trans, tail, rest, GetPacket(dev, link),
      Overlay(Zeroed(), Header(length, kind, got, trans) + tail));
  }

  // ----- zeros in front of the response

  ghost predicate Zeros(p: Packet) {
    |p| < 12 && forall i :: 0 <= i < |p| ==> p[i] == 0
  }

  lemma OverlayZeros(p: Packet)
    requires Zeros(p)
    ensures Overlay(Zeroed(), p) == Zeroed() && Get32(Zeroed(), 0) == 0
  {
  }

  /** A short packet of zeros is read over, as if the response phase began behind it. */
  lemma ZerosSkipped(dev: Device, asked: int, lastTrans: int, p: Packet, rest: seq<Packet>, link: Link)
    requires Ready(dev) && Zeros(p) && |p| <= dev.mp
    requires link.response == [] && link.queue == [p] + rest
    ensures var behind := GetPacket(dev, link).link;
      && behind.queue == rest && behind.response == [] && behind.split == link.split
      && GetResp(dev, asked, lastTrans, link) == GetResp(dev, asked, lastTrans, behind)
  {
    var r := GetPacket(dev, link);
    OnePacket(dev, p, rest, link, r);
    hide GetPacket;
    OverlayZeros(p);
    Resumes(dev, r);
  }

  lemma Resumes(dev: Device, r: PacketRead)
    requires r.ret == OK && |r.packet| < 12
    requires Overlay(Zeroed(), r.packet) == Zeroed() && Get32(Zeroed(), 0) == 0
    ensures var p := GetPacket(dev, r.link); NextResponse(dev, Zeroed(), r) == NextResponse(dev, Zeroed(), p)
  {
    hide GetPacket;
  }

  /**
   Between a header that announces exactly a packet and what it lacks, a terminator byte or an empty packet
   is read away if it is there, an empty one unless the header came alone; nothing else ever is.
   */
  lemma BehindTaken(dev: Device, length: nat, split: bool, queue: seq<Packet>)
    requires dev.mp > 1
    ensures BehindHeader(dev, length, split, queue) ==
      if length == dev.mp && queue != [] && |queue[0]| <= (if dev.noZeroReads then 1 else 0)
        && (dev.noZeroReads || !split) then queue[1..]
      else queue
  {
    if queue != [] {
      assert |queue[0]| <= 1 ==> Gather(queue, 1, dev.mp).queue == queue[1..];
    }
  }

  /**
   What a short packet holds behind the container is kept for the response phase if it can be a packet of
   its own, and dropped otherwise; the payload comes out either way.
   */
  lemma SurplusDecided(dev: Device, code: int, trans: int, payload: seq<Byte>, surplus: seq<Byte>,
    rest: seq<Packet>, link: Link)
    requires Comes(dev, link, 12 + |payload|, 2, code, trans, payload + surplus, rest)
    requires 12 + |payload| + |surplus| < dev.mp
    ensures var d := GetData(dev, code, link);
      && d.ret == OK && d.data == payload && d.link.queue == rest
      && d.link.response == if |surplus| >= 12 then surplus else []
  {
    hide GetPacket;
    var packet := Header(12 + |payload|, 2, code, trans) + (payload + surplus);
    ComesFirst(dev, link, 12 + |payload|, 2, code, trans, payload + surplus, rest, GetPacket(dev, link),
      Overlay(Zeroed(), packet));
    assert packet[12..12 + |payload|] == payload && packet[12 + |payload|..] == surplus;
  }
}
