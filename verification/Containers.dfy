/** PTP containers on the wire: a 12-byte header and a payload or up to five parameters. */
module Containers {
  import opened Bytes
  import opened Usb

  const PTP_USB_CONTAINER_COMMAND := 0x0001
  const PTP_USB_CONTAINER_DATA := 0x0002
  const PTP_USB_CONTAINER_RESPONSE := 0x0003

  /** The size of the container structure that packets are read into. */
  const CONTAINER_SIZE: nat := 1024

  function Header(length: int, kind: int, code: int, trans: int): (s: seq<Byte>)
    ensures |s| == HDR_LEN
  {
    Le32(length) + Le16(kind) + Le16(code) + Le32(trans)
  }

  /** The structure after a packet was copied over its beginning. */
  function Overlay(buffer: seq<Byte>, packet: seq<Byte>): (s: seq<Byte>)
    requires |buffer| == CONTAINER_SIZE
    ensures |s| >= CONTAINER_SIZE && |s| >= |packet|
    ensures |packet| <= CONTAINER_SIZE ==> |s| == CONTAINER_SIZE
    ensures s[..|packet|] == packet
  {
    packet + if |packet| < CONTAINER_SIZE then buffer[|packet|..] else []
  }

  function Zeroed(): (s: seq<Byte>)
    ensures |s| == CONTAINER_SIZE && forall i :: 0 <= i < CONTAINER_SIZE ==> s[i] == 0
  {
    seq(CONTAINER_SIZE, _ => 0)
  }

  predicate Is16(x: int) { 0 <= x < 0x1_0000 }

  predicate Is32(x: int) { 0 <= x < 0x1_0000_0000 }

  /** Reading the fields of a header back. */
  lemma HeaderFields(length: int, kind: int, code: int, trans: int, tail: seq<Byte>)
    requires Is32(length) && Is16(kind) && Is16(code) && Is32(trans)
    ensures var s := Header(length, kind, code, trans) + tail;
      Get32(s, 0) == length && Get16(s, 4) == kind && Get16(s, 6) == code && Get32(s, 8) == trans
  {
    hide Le16, Le32, Get16, Get32;
    var s := Header(length, kind, code, trans) + tail;
    var a, b, c, d := Le32(length), Le16(kind), Le16(code), Le32(trans);
    assert s == [] + a + (b + c + d + tail);
    Get32Le32([], length, b + c + d + tail);
    assert s == a + b + (c + d + tail);
    Get16Le16(a, kind, c + d + tail);
    assert s == (a + b) + c + (d + tail);
    Get16Le16(a + b, code, d + tail);
    assert s == (a + b + c) + d + tail;
    Get32Le32(a + b + c, trans, tail);
  }

  function Words(params: seq<int>): (s: seq<Byte>)
    ensures |s| == 4 * |params|
  {
    if params == [] then [] else Le32(params[0]) + Words(params[1..])
  }

  function RequestContainer(code: int, trans: int, params: seq<int>): (c: seq<Byte>)
    ensures |c| == HDR_LEN + 4 * |params|
  {
    Header(HDR_LEN + 4 * |params|, PTP_USB_CONTAINER_COMMAND, code, trans) + Words(params)
  }

  /** Reading a parameter back; those that were not sent read as zero. */
  lemma {:induction false} WordAt(pre: seq<Byte>, params: seq<int>, tail: seq<Byte>, i: nat)
    requires forall p :: p in params ==> Is32(p)
    requires i < |params|
    ensures Get32(pre + Words(params) + tail, |pre| + 4 * i) == params[i]
    decreases |params|
  {
    var w := Le32(params[0]);
    assert Is32(params[0]);
    if i == 0 {
      assert pre + Words(params) + tail == pre + w + (Words(params[1..]) + tail);
      Get32Le32(pre, params[0], Words(params[1..]) + tail);
    } else {
      assert pre + Words(params) + tail == (pre + w) + Words(params[1..]) + tail;
      WordAt(pre + w, params[1..], tail, i - 1);
    }
  }

  /** A container, field by field; the fields keep the low bits of the values. */
  ghost predicate Framed(s: seq<Byte>, length: int, kind: int, code: int, trans: int, body: seq<Byte>) {
    && |s| == 12 + |body| && s[12..] == body
    && Get32(s, 0) == length % 0x1_0000_0000
    && Get16(s, 4) == kind % 0x1_0000
    && Get16(s, 6) == code % 0x1_0000
    && Get32(s, 8) == trans % 0x1_0000_0000
  }

  lemma HeaderFramed(length: int, kind: int, code: int, trans: int, body: seq<Byte>)
    ensures Framed(Header(length, kind, code, trans) + body, length, kind, code, trans, body)
  {
    hide Le16, Le32, Get16, Get32;
    var s := Header(length, kind, code, trans) + body;
    var a, b, c, d := Le32(length), Le16(kind), Le16(code), Le32(trans);
    assert s == [] + a + (b + c + d + body);
    Get32Low([], length, b + c + d + body);
    assert s == a + b + (c + d + body);
    Get16Le16(a, kind, c + d + body);
    assert s == (a + b) + c + (d + body);
    Get16Le16(a + b, code, d + body);
    assert s == (a + b + c) + d + body;
    Get32Low(a + b + c, trans, body);
  }

  /** `body` holds the parameters, four bytes each. */
  ghost predicate HoldsWords(body: seq<Byte>, params: seq<int>) {
    && |body| == 4 * |params|
    && forall i :: 0 <= i < |params| ==> Get32(body, 4 * i) == params[i] % 0x1_0000_0000
  }

  lemma {:induction false} WordsHeld(pre: seq<Byte>, params: seq<int>, i: nat)
    requires i < |params|
    ensures Get32(pre + Words(params), |pre| + 4 * i) == params[i] % 0x1_0000_0000
    decreases |params|
  {
    var w := Le32(params[0]);
    if i == 0 {
      assert pre + Words(params) == pre + w + Words(params[1..]);
      Get32Low(pre, params[0], Words(params[1..]));
    } else {
      assert pre + Words(params) == (pre + w) + Words(params[1..]);
      WordsHeld(pre + w, params[1..], i - 1);
    }
  }

  /** What a request looks like. */
  lemma RequestFramed(code: int, trans: int, params: seq<int>)
    ensures var c := RequestContainer(code, trans, params);
      && Framed(c, 12 + 4 * |params|, 1, code, trans, c[12..])
      && HoldsWords(c[12..], params)
  {
    hide Header, Words, Get32, Get16;
    var c := RequestContainer(code, trans, params);
    HeaderFramed(12 + 4 * |params|, 1, code, trans, Words(params));
    assert c[12..] == Words(params);
    forall i | 0 <= i < |params| ensures Get32(c[12..], 4 * i) == params[i] % 0x1_0000_0000 {
      WordsHeld([], params, i);
      assert [] + Words(params) == Words(params);
    }
  }

  /** `wire` is `wire0` and a whole request. */
  ghost predicate RequestOnWire(wire0: seq<Byte>, wire: seq<Byte>, code: int, trans: int, params: seq<int>) {
    && wire0 <= wire
    && var c := wire[|wire0|..];
      |c| >= 12 && Framed(c, 12 + 4 * |params|, 1, code, trans, c[12..]) && HoldsWords(c[12..], params)
  }

  /** `wire` is `wire0` and a whole data container. */
  ghost predicate DataOnWire(wire0: seq<Byte>, wire: seq<Byte>, code: int, trans: int, payload: seq<Byte>) {
    wire0 <= wire && Framed(wire[|wire0|..], 12 + |payload|, 2, code, trans, payload)
  }

  lemma RequestSent(wire0: seq<Byte>, code: int, trans: int, params: seq<int>)
    ensures RequestOnWire(wire0, wire0 + RequestContainer(code, trans, params), code, trans, params)
  {
    hide RequestContainer, Framed, HoldsWords;
    RequestFramed(code, trans, params);
    var c := RequestContainer(code, trans, params);
    assert (wire0 + c)[|wire0|..] == c;
  }

  lemma DataSent(wire0: seq<Byte>, wire: seq<Byte>, code: int, trans: int, payload: seq<Byte>)
    requires wire == wire0 + (Header(HDR_LEN + |payload|, PTP_USB_CONTAINER_DATA, code, trans) + payload)
    ensures DataOnWire(wire0, wire, code, trans, payload)
  {
    hide Header, Framed;
    HeaderFramed(12 + |payload|, 2, code, trans, payload);
    var c := Header(HDR_LEN + |payload|, PTP_USB_CONTAINER_DATA, code, trans) + payload;
    assert (wire0 + c)[|wire0|..] == c;
  }
}
