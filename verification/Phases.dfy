/** The data-in and response phases: what they make of the packets that the device sends. */
module Phases {
  import opened Bytes
  import opened Containers
  import opened TransferProgress
  import opened Usb
  import opened BulkRead

  const PTP_RC_OK := 0x2001
  const PTP_RC_UNDEFINED := 0x2000
  const PTP_RC_LAST := 0x2020
  const LONG_READ: nat := 0x2000_0000

  /** Packets to come, a packet kept back for the next phase, the split-header flag and the counters. */
  datatype Link = Link(queue: seq<Packet>, response: seq<Byte>, split: bool, prog: Progress)

  datatype PacketRead = PacketRead(ret: Ret, packet: seq<Byte>, link: Link)

  function GetPacket(dev: Device, link: Link): (r: PacketRead)
    ensures |r.link.queue| <= |link.queue| && r.link.response == []
    ensures r.ret == OK ==> Waiting(r.link) < Waiting(link)
    ensures link.response == [] ==> |r.packet| <= dev.mp
  {
    if link.response != [] then PacketRead(OK, link.response, link.(response := []))
    else
      var e := ReadFunc(dev, dev.mp, false, link.queue, link.prog);
      PacketRead(e.ret, e.got, link.(queue := e.queue, prog := e.prog))
  }

  function Waiting(link: Link): nat {
    |link.queue| + if link.response == [] then 0 else 1
  }

  /** Reads on until a transfer ends. */
  function Drain(dev: Device, link: Link): (r: PacketRead)
    decreases |link.queue|
  {
    var e := ReadFunc(dev, LONG_READ, false, link.queue, link.prog);
    var link' := link.(queue := e.queue, prog := e.prog);
    if e.ret != OK || |e.got| < LONG_READ then PacketRead(e.ret, e.got, link')
    else
      var r := Drain(dev, link');
      r.(packet := e.got + r.packet)
  }

  /** One unrolling of `Drain`, when `got` was read before. */
  lemma DrainStep(dev: Device, link: Link, whole: PacketRead, got: seq<Byte>, e: ReadEnd)
    requires whole == Drain(dev, link).(packet := got + Drain(dev, link).packet)
    requires e == ReadFunc(dev, LONG_READ, false, link.queue, link.prog)
    ensures var link' := link.(queue := e.queue, prog := e.prog);
      if e.ret != OK || |e.got| < LONG_READ then whole == PacketRead(e.ret, got + e.got, link')
      else whole == Drain(dev, link').(packet := got + e.got + Drain(dev, link').packet)
  {
    hide ReadFunc;
    var link' := link.(queue := e.queue, prog := e.prog);
    assert got + e.got + Drain(dev, link').packet == got + (e.got + Drain(dev, link').packet);
  }

  /** `data` is what the handler was given. */
  datatype DataRead = DataRead(ret: Ret, data: seq<Byte>, link: Link)

  function GetData(dev: Device, code: int, link: Link): DataRead {
    var r := GetPacket(dev, link);
    if r.ret != OK then DataRead(IOError, [], r.link)
    else
      var usbdata := Overlay(Zeroed(), r.packet);
      var got := Get16(usbdata, 6);
      if Get16(usbdata, 4) != PTP_USB_CONTAINER_DATA then DataRead(DataExpected, [], r.link)
      else if got != code && !dev.ignoreHeaderErrors then
        DataRead(if PTP_RC_UNDEFINED <= got <= PTP_RC_LAST then Code(got) else IOError, [], r.link)
      else if |r.packet| < HDR_LEN then DataRead(Undefined, [], r.link)
      else if |r.packet| == dev.mp then GetLongData(dev, r.packet, Get32(usbdata, 0), r.link)
      else if Get32(usbdata, 0) < HDR_LEN then DataRead(Undefined, [], r.link)
      else GetShortData(dev, r.packet, Get32(usbdata, 0), r.link)
  }

  /** The first packet was full: what follows is read up to the end of the transfer. */
  function GetLongData(dev: Device, packet: seq<Byte>, length: nat, link: Link): DataRead
    requires |packet| >= HDR_LEN
  {
    if |packet| == length then DataRead(OK, packet[HDR_LEN..], link)
    else
      var d := Drain(dev, link);
      DataRead(d.ret, packet[HDR_LEN..] + d.packet, d.link)
  }

  /** A container of one whole packet may be followed by a terminator byte or an empty packet, which is read away. */
  function BehindHeader(dev: Device, length: nat, split: bool, queue: seq<Packet>): seq<Packet> {
    if dev.noZeroReads && length == dev.mp then BulkTransfer(queue, 1, dev.mp).queue
    else if length == dev.mp && !split then BulkTransfer(queue, 0, dev.mp).queue
    else queue
  }

  /** The first packet was short: what it holds beyond the container is kept or dropped, what it lacks is read. */
  function GetShortData(dev: Device, packet: seq<Byte>, length: nat, link: Link): DataRead
    requires |packet| >= HDR_LEN && length >= HDR_LEN
  {
    var rlen := if |packet| > length then length else |packet|;
    var surplus := packet[rlen..];
    var split := link.split || (length > HDR_LEN && rlen == HDR_LEN);
    var queue := BehindHeader(dev, length, split, link.queue);
    var response := if |surplus| >= HDR_LEN then surplus else link.response;
    var link' := link.(split := split, queue := queue, response := response);
    var head := packet[HDR_LEN..rlen];
    if length <= rlen then DataRead(OK, head, link')
    else
      var e := ReadFunc(dev, length - rlen, true, queue, link.prog);
      DataRead(e.ret, head + e.got, link'.(queue := e.queue, prog := e.prog))
  }

  /** The response container as the caller gets it. */
  datatype Response = Response(code: int, trans: int, params: seq<int>)

  datatype RespRead = RespRead(ret: Ret, resp: Response, link: Link)

  /** Short packets of zeros in front of the response are skipped; `p` is the packet read last. */
  function NextResponse(dev: Device, buffer: seq<Byte>, p: PacketRead): (r: PacketRead)
    requires |buffer| == CONTAINER_SIZE
    ensures r.ret == OK ==> |r.packet| >= CONTAINER_SIZE
    decreases Waiting(p.link)
  {
    if p.ret != OK then p
    else
      var usbresp := Overlay(buffer, p.packet);
      if |p.packet| < HDR_LEN && Get32(usbresp, 0) == 0 then
        var p' := GetPacket(dev, p.link);
        if p'.ret != OK then p' else NextResponse(dev, usbresp, p')
      else p.(packet := usbresp)
  }

  /** `asked` is the operation code of the request, `lastTrans` the transaction the session is in. */
  function GetResp(dev: Device, asked: int, lastTrans: int, link: Link): RespRead {
    Decode(dev, asked, lastTrans, NextResponse(dev, Zeroed(), GetPacket(dev, link)))
  }

  function Decode(dev: Device, asked: int, lastTrans: int, next: PacketRead): RespRead
    requires next.ret == OK ==> |next.packet| >= CONTAINER_SIZE
  {
    var usbresp, link' := next.packet, next.link;
    var none := Response(asked, 0, []);
    if next.ret != OK then RespRead(IOError, none, link')
    else
      var code := Get16(usbresp, 6);
      if Get16(usbresp, 4) != PTP_USB_CONTAINER_RESPONSE then RespRead(RespExpected, none, link')
      else if code != asked && code != PTP_RC_OK then RespRead(Code(code), none, link')
      else
        var trans := if dev.ignoreHeaderErrors then lastTrans else Get32(usbresp, 8);
        RespRead(OK, Response(code, trans, Params(usbresp)), link')
  }

  function Params(usbresp: seq<Byte>): (params: seq<int>)
    requires |usbresp| >= CONTAINER_SIZE
  {
    [Get32(usbresp, 12), Get32(usbresp, 16), Get32(usbresp, 20), Get32(usbresp, 24), Get32(usbresp, 28)]
  }
}
