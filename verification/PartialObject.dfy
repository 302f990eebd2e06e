/** Reading a part of an object: requests are cut to the end of the file and kept off lengths that hang some devices. */
module PartialObject {
  import opened Bytes
  import opened Usb
  import opened Wrappers

  const MAX_PACKET_LEN_READ: nat := 512
  const U64: nat := 0x1_0000_0000_0000_0000
  const U32: nat := 0x1_0000_0000

  type Size = n: nat | n < 0x1_0000_0000_0000_0000
  type Count = n: nat | n < 0x1_0000_0000

  datatype Device = Device(samsungOffsetBug: bool, android64: bool, partial32: bool)

  datatype Error = NoSuchObject | NotSupported | OffsetTooLarge

  /** What a device sends for a request: no more than there is. */
  function Reply(content: seq<Byte>, offset: nat, length: nat): seq<Byte>
    requires offset <= |content|
  {
    content[offset..if offset + length <= |content| then offset + length else |content|]
  }

  /** The length asked for at an offset inside the file; the sum is taken in 64 bits. */
  function Clamp(offset: Size, maxbytes: Count, filesize: Size): (n: nat)
    requires offset < filesize
    ensures n <= maxbytes
  {
    if (offset + maxbytes) % U64 > filesize then (filesize - offset) % U32 else maxbytes
  }

  function Shorten(d: Device, length: nat): (n: nat)
    ensures n <= length && (length > 0 ==> n > 0)
  {
    if d.samsungOffsetBug && length % MAX_PACKET_LEN_READ == MAX_PACKET_LEN_READ - HDR_LEN then length - 1 else length
  }

  function Request(d: Device, offset: Size, maxbytes: Count, filesize: Size): nat
    requires offset < filesize
  {
    Shorten(d, Clamp(offset, maxbytes, filesize))
  }

  /** Why a device cannot be asked for a part at `offset`. */
  function Refusal(d: Device, offset: Size): Option<Error> {
    if d.android64 then None
    else if !d.partial32 then Some(NotSupported)
    else if offset >= U32 then Some(OffsetTooLarge)
    else None
  }

  function Partial(d: Device, file: Option<seq<Byte>>, offset: Size, maxbytes: Count): Result<seq<Byte>, Error>
    requires file.Some? ==> |file.value| < U64
  {
    if file.None? then Err(NoSuchObject)
    else if offset >= |file.value| then Ok([])
    else
      var refusal := Refusal(d, offset);
      if refusal.Some? then Err(refusal.value)
      else Ok(Reply(file.value, offset, Request(d, offset, maxbytes, |file.value|)))
  }

  // ----- the outcome, written out

  /**
   No object, nothing behind its end, no operation that could be used, an offset too large for the one there
   is, or the bytes from the offset on: as many as were asked for and are there, one fewer where the
   Samsung bug would see whole packets.
   */
  ghost predicate Answers(d: Device, file: Option<seq<Byte>>, offset: Size, maxbytes: Count,
    r: Result<seq<Byte>, Error>)
  {
    match file
    case None => r == Err(NoSuchObject)
    case Some(content) =>
      if offset >= |content| then r == Ok([])
      else if !d.android64 && !d.partial32 then r == Err(NotSupported)
      else if !d.android64 && offset >= 0x1_0000_0000 then r == Err(OffsetTooLarge)
      else r.Ok? && (offset + maxbytes < 0x1_0000_0000_0000_0000 ==> PartFrom(d, content, offset, maxbytes, r.value))
  }

  ghost predicate PartFrom(d: Device, content: seq<Byte>, offset: nat, maxbytes: nat, part: seq<Byte>)
    requires offset < |content|
  {
    var left := |content| - offset;
    var want := if maxbytes <= left then maxbytes else left;
    var n := if d.samsungOffsetBug && (12 + want) % 512 == 0 then want - 1 else want;
    part == content[offset..offset + n]
  }

  lemma PartialAnswers(d: Device, file: Option<seq<Byte>>, offset: Size, maxbytes: Count)
    requires file.Some? ==> |file.value| < U64
    ensures Answers(d, file, offset, maxbytes, Partial(d, file, offset, maxbytes))
  {
    hide Request;
    if file.Some? && offset < |file.value| && offset + maxbytes < U64 {
      RequestExact(d, offset, maxbytes, |file.value|);
    }
  }

  lemma HighBits(offset: nat)
    ensures offset / U32 != 0 <==> offset >= U32
    ensures offset < U32 ==> offset % U32 == offset
  {
  }

  method GetPartialObject(d: Device, file: Option<seq<Byte>>, offset: Size, maxbytes: Count)
    returns (r: Result<seq<Byte>, Error>)
    requires file.Some? ==> |file.value| < U64
    ensures r == Partial(d, file, offset, maxbytes)
    ensures Answers(d, file, offset, maxbytes, r)
  {
    PartialAnswers(d, file, offset, maxbytes);
    hide Reply, Answers;
    HighBits(offset);
    if file.None? {
      return Err(NoSuchObject);
    }
    var filesize: Size := |file.value|;
    if offset >= filesize {
      return Ok([]);
    }
    var length: nat := maxbytes;
    if (offset + maxbytes) % U64 > filesize {
      length := (filesize - offset) % U32;
    }
    if d.samsungOffsetBug && length % MAX_PACKET_LEN_READ == MAX_PACKET_LEN_READ - HDR_LEN {
      length := length - 1;
    }
    if !d.android64 {
      if !d.partial32 {
        return Err(NotSupported);
      }
      if offset / U32 != 0 {
        return Err(OffsetTooLarge);
      }
      return Ok(Reply(file.value, offset % U32, length));
    }
    r := Ok(Reply(file.value, offset, length));
  }

  /** The cut keeps a request inside the file exactly when the 64-bit sum does not wrap. */
  lemma ClampInside(offset: Size, maxbytes: Count, filesize: Size)
    requires offset < filesize
    ensures offset + Clamp(offset, maxbytes, filesize) <= filesize <==> offset + maxbytes < U64
  {
    if offset + maxbytes >= U64 {
      assert (offset + maxbytes) % U64 == offset + maxbytes - U64;
    }
  }

  /** The whole request: in the file, not empty, as much as was asked for or left, up to the one byte held back. */
  lemma RequestExact(d: Device, offset: Size, maxbytes: Count, filesize: Size)
    requires offset < filesize && offset + maxbytes < U64
    ensures var n := Request(d, offset, maxbytes, filesize);
      && offset + n <= filesize && n <= maxbytes
      && (maxbytes > 0 ==> n > 0)
      && (d.samsungOffsetBug ==> (HDR_LEN + n) % MAX_PACKET_LEN_READ != 0)
      && var want := if maxbytes <= filesize - offset then maxbytes else filesize - offset;
         n == if d.samsungOffsetBug && (HDR_LEN + want) % MAX_PACKET_LEN_READ == 0 then want - 1 else want
  {
    hide Clamp, Shorten;
    ClampInside(offset, maxbytes, filesize);
    ClampWants(offset, maxbytes, filesize);
    ShortenExactly(d, Clamp(offset, maxbytes, filesize));
  }

  lemma ClampWants(offset: Size, maxbytes: Count, filesize: Size)
    requires offset < filesize && offset + maxbytes < U64
    ensures Clamp(offset, maxbytes, filesize) == if maxbytes <= filesize - offset then maxbytes else filesize - offset
  {
  }

  /** One byte is held back exactly when header and data would fill whole packets, which they then do not. */
  lemma ShortenExactly(d: Device, length: nat)
    ensures Shorten(d, length) ==
      if d.samsungOffsetBug && (HDR_LEN + length) % MAX_PACKET_LEN_READ == 0 then length - 1
      else length
    ensures d.samsungOffsetBug ==> (HDR_LEN + Shorten(d, length)) % MAX_PACKET_LEN_READ != 0
  {
    assert length % MAX_PACKET_LEN_READ == MAX_PACKET_LEN_READ - HDR_LEN <==>
      (HDR_LEN + length) % MAX_PACKET_LEN_READ == 0;
  }

  /** On a device with the Samsung bug no reply ends on a packet boundary, whatever is asked for. */
  lemma NeverWholePackets(d: Device, offset: Size, maxbytes: Count, filesize: Size)
    requires d.samsungOffsetBug && offset < filesize
    ensures (HDR_LEN + Request(d, offset, maxbytes, filesize)) % MAX_PACKET_LEN_READ != 0
  {
    hide Clamp, Shorten;
    ShortenExactly(d, Clamp(offset, maxbytes, filesize));
  }

  /** What a caller collects who goes on at the offset reached until nothing comes; `None` when a call fails. */
  function ReadOn(d: Device, content: seq<Byte>, offset: Size, maxbytes: Count): Option<seq<Byte>>
    requires |content| < U64
    requires maxbytes > 0
    decreases |content| - offset
  {
    var r := Partial(d, Some(content), offset, maxbytes);
    if r.Err? then None
    else if r.value == [] then Some([])
    else
      var rest := ReadOn(d, content, offset + |r.value|, maxbytes);
      if rest.Some? then Some(r.value + rest.value) else None
  }

  /** A request that is made gets something: the cut and the byte held back never leave it empty. */
  lemma RequestPositive(d: Device, offset: Size, maxbytes: Count, filesize: Size)
    requires offset < filesize && maxbytes > 0
    ensures Request(d, offset, maxbytes, filesize) > 0
  {
  }

  /** The offset of the last request that such a caller makes before the end of the file. */
  function LastOffset(d: Device, filesize: Size, offset: Size, maxbytes: Count): nat
    requires offset < filesize && maxbytes > 0
    decreases filesize - offset
  {
    RequestPositive(d, offset, maxbytes, filesize);
    var next := offset + Request(d, offset, maxbytes, filesize);
    if next >= filesize then offset else LastOffset(d, filesize, next, maxbytes)
  }

  lemma PartialStep(d: Device, content: seq<Byte>, offset: Size, maxbytes: Count)
    requires |content| < U64 && maxbytes > 0 && offset < |content|
    ensures var r := Partial(d, Some(content), offset, maxbytes);
      var next := offset + Request(d, offset, maxbytes, |content|);
      if Refusal(d, offset).Some? then r.Err?
      else r.Ok? && r.value == content[offset..if next <= |content| then next else |content|] && r.value != []
  {
    hide Request;
    RequestPositive(d, offset, maxbytes, |content|);
  }

  /**
   Going on from the offset just reached ends, and rebuilds the file if and only if the device takes
   the offset of the last request: always with the 64-bit operation, below 2^32 with the other.
   */
  lemma {:induction false} ReadOnExactly(d: Device, content: seq<Byte>, offset: Size, maxbytes: Count)
    requires |content| < U64 && maxbytes > 0 && offset <= |content|
    ensures ReadOn(d, content, offset, maxbytes) ==
      if offset == |content| || d.android64 || (d.partial32 && LastOffset(d, |content|, offset, maxbytes) < U32)
      then Some(content[offset..]) else None
    decreases |content| - offset
  {
    hide Partial, Request;
    if offset == |content| {
      AtEnd(d, content, offset, maxbytes);
    } else {
      PartialStep(d, content, offset, maxbytes);
      LastOffsetLater(d, |content|, offset, maxbytes);
      var next := offset + Request(d, offset, maxbytes, |content|);
      if Refusal(d, offset).None? {
        if next < |content| {
          ReadOnExactly(d, content, next, maxbytes);
          assert content[offset..] == content[offset..next] + content[next..];
        } else {
          ReadOnExactly(d, content, |content|, maxbytes);
          assert content[offset..|content|] + content[|content|..] == content[offset..];
        }
      }
    }
  }

  lemma AtEnd(d: Device, content: seq<Byte>, offset: Size, maxbytes: Count)
    requires |content| < U64 && maxbytes > 0 && offset == |content|
    ensures ReadOn(d, content, offset, maxbytes) == Some([]) && content[offset..] == []
  {
  }

  lemma {:induction false} LastOffsetLater(d: Device, filesize: Size, offset: Size, maxbytes: Count)
    requires offset < filesize && maxbytes > 0
    ensures offset <= LastOffset(d, filesize, offset, maxbytes) < filesize <= LastOffset(d, filesize, offset,
      maxbytes) + maxbytes
    decreases filesize - offset
  {
    hide Request;
    RequestPositive(d, offset, maxbytes, filesize);
    RequestBounded(d, offset, maxbytes, filesize);
    var next := offset + Request(d, offset, maxbytes, filesize);
    if next < filesize {
      LastOffsetLater(d, filesize, next, maxbytes);
    }
  }

  lemma RequestBounded(d: Device, offset: Size, maxbytes: Count, filesize: Size)
    requires offset < filesize
    ensures Request(d, offset, maxbytes, filesize) <= maxbytes
  {
  }

  /**
   Files of up to 2^32 bytes are always rebuilt, files longer than that by a whole request never with
   32-bit offsets.
   */
  lemma ReadOnRebuilds(d: Device, content: seq<Byte>, maxbytes: Count)
    requires |content| < U64 && maxbytes > 0
    ensures d.android64 || (d.partial32 && |content| <= U32) ==> ReadOn(d, content, 0, maxbytes) == Some(content)
    ensures !d.android64 && |content| > U32 + maxbytes ==> ReadOn(d, content, 0, maxbytes) == None
  {
    hide LastOffset, ReadOn;
    ReadOnExactly(d, content, 0, maxbytes);
    assert content[0..] == content;
    if content != [] {
      LastOffsetLater(d, |content|, 0, maxbytes);
    }
  }

  /** The number of requests of full length that come before what is left fits one request. */
  function FullRequests(left: nat, maxbytes: Count, step: nat): nat
    requires 0 < step
  {
    if left <= maxbytes then 0 else (left - maxbytes + step - 1) / step
  }

  /** The last offset in closed form, for any device. */
  function LastOffsetOf(d: Device, filesize: Size, offset: Size, maxbytes: Count): int
    requires offset < filesize && maxbytes > 0
  {
    var step := Shorten(d, maxbytes);
    var at := offset + FullRequests(filesize - offset, maxbytes, step) * step;
    if d.samsungOffsetBug && (HDR_LEN + filesize - at) % MAX_PACKET_LEN_READ == 0 then filesize - 1 else at
  }

  /**
   The last offset is known beforehand: full steps until one request takes the rest, and one byte
   before the end if the device has the bug and that request would fill whole packets.
   */
  lemma {:induction false} LastOffsetExactly(d: Device, filesize: Size, offset: Size, maxbytes: Count)
    requires offset < filesize && maxbytes > 0 && filesize + maxbytes <= U64
    ensures LastOffset(d, filesize, offset, maxbytes) == LastOffsetOf(d, filesize, offset, maxbytes)
    decreases filesize - offset
  {
    hide Clamp, Shorten, LastOffset;
    var left, step := filesize - offset, Shorten(d, maxbytes);
    LastOffsetStep(d, filesize, offset, maxbytes);
    ClampWants(offset, maxbytes, filesize);
    if left > maxbytes {
      LastOffsetExactly(d, filesize, offset + step, maxbytes);
      OffsetOfStep(d, filesize, offset, maxbytes);
    } else {
      ShortenExactly(d, left);
      if Shorten(d, left) < left {
        LastByte(d, filesize, maxbytes);
      }
    }
  }

  lemma OffsetOfStep(d: Device, filesize: Size, offset: Size, maxbytes: Count)
    requires maxbytes > 0 && offset + maxbytes < filesize
    ensures LastOffsetOf(d, filesize, offset, maxbytes)
         == LastOffsetOf(d, filesize, offset + Shorten(d, maxbytes), maxbytes)
  {
    hide Shorten, FullRequests;
    FullRequestsStep(filesize - offset, maxbytes, Shorten(d, maxbytes));
  }

  lemma LastOffsetStep(d: Device, filesize: Size, offset: Size, maxbytes: Count)
    requires offset < filesize && maxbytes > 0
    ensures var next := offset + Request(d, offset, maxbytes, filesize);
      LastOffset(d, filesize, offset, maxbytes) ==
        if next >= filesize then offset
        else LastOffset(d, filesize, next, maxbytes)
  {
    hide Request;
  }

  /** With one byte left that byte is what is asked for. */
  lemma LastByte(d: Device, filesize: Size, maxbytes: Count)
    requires filesize > 0 && maxbytes > 0 && filesize + maxbytes <= U64
    ensures LastOffset(d, filesize, filesize - 1, maxbytes) == filesize - 1
  {
    hide Clamp, Shorten, LastOffset;
    LastOffsetStep(d, filesize, filesize - 1, maxbytes);
    ClampWants(filesize - 1, maxbytes, filesize);
    ShortenExactly(d, 1);
  }

  lemma FullRequestsStep(left: nat, maxbytes: Count, step: nat)
    requires 0 < step <= maxbytes < left
    ensures FullRequests(left, maxbytes, step) * step == FullRequests(left - step, maxbytes, step) * step + step
  {
    var n := left - maxbytes + step - 1;
    if left - step <= maxbytes {
      Quotient(n, step, 1);
    } else {
      OneLess(n, step);
    }
  }

  /** Without the Samsung bug it is the last multiple of the request size inside the file. */
  lemma LastOffsetPlain(d: Device, filesize: Size, maxbytes: Count)
    requires 0 < filesize && maxbytes > 0 && filesize + maxbytes <= U64 && !d.samsungOffsetBug
    ensures LastOffset(d, filesize, 0, maxbytes) == (filesize - 1) / maxbytes * maxbytes
  {
    LastOffsetExactly(d, filesize, 0, maxbytes);
    if filesize <= maxbytes {
      Quotient(filesize - 1, maxbytes, 0);
    }
  }

  /** When a whole file is rebuilt, in terms of the device, the lengths and nothing else. */
  lemma RebuiltExactly(d: Device, content: seq<Byte>, maxbytes: Count)
    requires maxbytes > 0 && |content| + maxbytes <= U64
    ensures ReadOn(d, content, 0, maxbytes) == Some(content) <==>
      content == [] || d.android64 || (d.partial32 && LastOffsetOf(d, |content|, 0, maxbytes) < U32)
  {
    hide ReadOn, LastOffset, LastOffsetOf;
    ReadOnExactly(d, content, 0, maxbytes);
    assert content[0..] == content;
    if content != [] {
      LastOffsetExactly(d, |content|, 0, maxbytes);
    }
  }

  /** With it, not so: this file's last byte is asked for on its own. */
  lemma LastOffsetFlagged()
    ensures LastOffset(Device(true, false, true), 500, 0, 1000) == 499
  {
    LastOffsetExactly(Device(true, false, true), 500, 0, 1000);
  }

  lemma Quotient(n: nat, m: nat, q: nat)
    requires m > 0 && q * m <= n < q * m + m
    ensures n / m == q
  {
    MulOrder(n / m - q, m);
    assert (n / m - q) * m == n / m * m - q * m;
  }

  lemma OneLess(n: nat, m: nat)
    requires 0 < m <= n
    ensures n / m * m == (n - m) / m * m + m
  {
    var q := (n - m) / m;
    assert (q + 1) * m == q * m + m;
    Quotient(n, m, q + 1);
  }

  /** So the length of the file does not decide alone: this one is longer than 2^32 bytes and is rebuilt. */
  lemma LongFileRebuilt(d: Device, content: seq<Byte>)
    requires !d.samsungOffsetBug && d.partial32 && |content| == U32 + 5
    ensures ReadOn(d, content, 0, U32 - 1) == Some(content)
  {
    hide LastOffset, ReadOn;
    ReadOnExactly(d, content, 0, U32 - 1);
    LastOffsetPlain(d, |content|, U32 - 1);
    Quotient(|content| - 1, U32 - 1, 1);
    assert content[0..] == content;
  }
}
