/** Whole sessions: many exchanges over one link. */
module Session {
  import opened Bytes
  import opened Usb
  import opened BulkRead
  import opened Phases
  import opened Framing

  /** One operation with a data phase in, as the device answers it. */
  datatype Deal = Deal(style: Style, code: int, trans: int, payload: seq<Byte>, rcode: int, rtrans: int,
    params: seq<int>)

  ghost predicate Proper(deal: Deal, mp: PacketSize) {
    && IsPayload(deal.code, deal.trans, deal.payload) && IsResponse(deal.rcode, deal.rtrans, deal.params)
    && Fits(deal.style, DataOf(deal), ResponseOf(deal), mp)
  }

  function DataOf(deal: Deal): (c: seq<Byte>)
    ensures |c| >= HDR_LEN
  {
    DataContainer(deal.code, deal.trans, deal.payload)
  }

  function ResponseOf(deal: Deal): seq<Byte> {
    ResponseContainer(deal.rcode, deal.rtrans, deal.params)
  }

  /** The packets of all deals, one after the other. */
  function Traffic(deals: seq<Deal>, mp: PacketSize): seq<Packet> {
    if deals == [] then []
    else Stream(deals[0].style, DataOf(deals[0]), ResponseOf(deals[0]), mp) + Traffic(deals[1..], mp)
  }

  /** Data and response phases in turn hand on each deal as it was sent and end in front of `rest`. */
  ghost predicate Delivered(dev: Device, deals: seq<Deal>, lastTrans: int, link: Link, rest: seq<Packet>)
    requires forall deal :: deal in deals ==> Proper(deal, dev.mp)
    decreases |deals|
  {
    if deals == [] then link.queue == rest && link.response == []
    else
      var deal := deals[0];
      assert Proper(deal, dev.mp);
      var d := GetData(dev, deal.code, link);
      var r := GetResp(dev, deal.code, lastTrans, d.link);
      && d.ret == OK && d.data == deal.payload
      && ResponseIs(r, deal.code, deal.rcode, deal.rtrans, deal.params, r.link.queue)
      && Delivered(dev, deals[1..], lastTrans, r.link, rest)
  }

  /**
   Over a whole session, however each deal is framed and whatever phases before it found out about
   split headers, no byte is lost, repeated or taken for another deal's.
   */
  lemma {:induction false} SessionDelivered(dev: Device, deals: seq<Deal>, lastTrans: int, link: Link,
    rest: seq<Packet>)
    requires Usable(dev) && forall deal :: deal in deals ==> Proper(deal, dev.mp)
    requires link.response == [] && link.queue == Traffic(deals, dev.mp) + rest
    ensures Delivered(dev, deals, lastTrans, link, rest)
    decreases |deals|
  {
    hide Usable, GetData, GetResp, Stream, Fits, DataContainer, ResponseContainer;
    if deals == [] {
      assert Traffic(deals, dev.mp) + rest == rest;
    } else {
      var deal := deals[0];
      assert Proper(deal, dev.mp);
      var later := Traffic(deals[1..], dev.mp) + rest;
      assert link.queue == Stream(deal.style, DataOf(deal), ResponseOf(deal), dev.mp) + later;
      Exchange(dev, deal.style, link, later, deal.code, deal.trans, deal.payload, lastTrans, deal.rcode, deal.rtrans,
        deal.params);
      var r := GetResp(dev, deal.code, lastTrans, GetData(dev, deal.code, link).link);
      SessionDelivered(dev, deals[1..], lastTrans, r.link, rest);
    }
  }
}
