/** A whole data phase out: the header, the payload, and the zero-length write that ends it. */
module DataPhase {
  import opened TransferProgress
  import opened BulkWrite
  import opened Usb

  const PTP_USB_BULK_PAYLOAD_LEN_WRITE: nat := 1024 - HDR_LEN

  /** How much of the payload travels in the same container write as the header. */
  function InlineLen(size: nat, split: bool): nat {
    if split then 0 else if size < PTP_USB_BULK_PAYLOAD_LEN_WRITE then size else PTP_USB_BULK_PAYLOAD_LEN_WRITE
  }

  /** `zeros` are the positions on the wire at which a zero-length write went out. */
  datatype Phase = Phase(ret: Ret, sent: nat, zeros: seq<nat>, st: State)

  /** The rest of the payload, in calls of at most `maxLong` bytes, from wire position `at` on. */
  function SendRest(left: nat, at: nat, maxLong: nat, env: Env, st: State): (p: Phase)
    requires maxLong > 0
    ensures p.sent <= left
    decreases left
  {
    if left == 0 then Phase(OK, 0, [], st)
    else
      var w := WriteFunc(if left > maxLong then maxLong else left, env, st);
      if w.ret != OK then Phase(w.ret, w.sent, ZeroAt(w, at), w.st)
      else if w.sent == 0 then Phase(IOError, 0, ZeroAt(w, at), w.st)
      else Then(w, at, SendRest(left - w.sent, at + w.sent, maxLong, env, w.st))
  }

  function ZeroAt(w: Written, at: nat): seq<nat> {
    if w.zero then [at + w.sent] else []
  }

  /** A call followed by the phase that finishes what it left. */
  function Then(w: Written, at: nat, p: Phase): Phase {
    Phase(p.ret, w.sent + p.sent, ZeroAt(w, at) + p.zeros, p.st)
  }

  /** The counters at the start of a phase of `size` payload bytes. */
  function Announced(size: nat, st: State): State {
    st.(prog := st.prog.(complete := 0, total := size + HDR_LEN))
  }

  /** The header with the inline payload, then the rest: `first` bytes of the former, `rest` of the latter. */
  datatype DataPhase = DataPhase(ret: Ret, first: nat, rest: nat, zeros: seq<nat>, st: State)

  function SendData(size: nat, split: bool, maxLong: nat, env: Env, base: nat, st: State): (d: DataPhase)
    requires maxLong > 0
    ensures d.first <= HDR_LEN + InlineLen(size, split) && d.rest <= size - InlineLen(size, split)
  {
    var n := InlineLen(size, split);
    var w := WriteFunc(HDR_LEN + n, env, Announced(size, st));
    Combine(w, size <= n, base, SendRest(size - n, base + w.sent, maxLong, env, w.st))
  }

  /** The phase from its two halves; the second one only happens if something is left and no error occurred. */
  function Combine(w: Written, done: bool, base: nat, p: Phase): DataPhase {
    if w.ret != OK || done then DataPhase(w.ret, w.sent, 0, ZeroAt(w, base), w.st)
    else DataPhase(
      if p.ret != OK && p.ret != Cancelled then IOError else p.ret, w.sent, p.sent, ZeroAt(w, base) + p.zeros, p.st)
  }

  // ----- everything is sent

  /** What a call with `left` bytes to go has to leave behind. */
  ghost predicate CallOK(w: Written, left: nat, mp: nat)
    requires mp > 0
  {
    && 0 < w.sent <= left
    && w.st.prog.total == w.st.prog.complete + (left - w.sent)
    && (w.sent < left ==> !w.zero && (left - w.sent) % mp == left % mp)
    && (w.sent == left ==> (w.zero <==> left % mp == 0))
  }

  ghost predicate RestOK(p: Phase, left: nat, at: nat, mp: nat)
    requires mp > 0
  {
    p.ret == OK ==> p.sent == left && p.zeros == if left % mp == 0 then [at + left] else []
  }

  lemma RestCall(left: nat, maxLong: nat, env: Env, st: State, w: Written)
    requires Sane(env.mp) && maxLong > 0 && maxLong % env.mp == 0 && left > 0
    requires st.prog.total == st.prog.complete + left
    requires w == WriteFunc(if left > maxLong then maxLong else left, env, st) && w.ret == OK
    ensures CallOK(w, left, env.mp)
  {
    CallInPhase(if left > maxLong then maxLong else left, env, st);
    if w.sent < left {
      SubMod(left, w.sent, env.mp);
    }
  }

  lemma ThenOK(w: Written, p: Phase, left: nat, at: nat, mp: nat)
    requires mp > 0 && CallOK(w, left, mp)
    requires if w.sent < left then RestOK(p, left - w.sent, at + w.sent, mp) else p == Phase(OK, 0, [], w.st)
    ensures RestOK(Then(w, at, p), left, at, mp)
  {
  }

  /**
   The rest of a data phase: whatever short writes happen, success means that every byte got out,
   and one zero-length write follows the last byte exactly when the rest fills its packets.
   */
  lemma {:induction false} RestComplete(left: nat, at: nat, maxLong: nat, env: Env, st: State, p: Phase)
    requires Sane(env.mp) && maxLong > 0 && maxLong % env.mp == 0 && left > 0
    requires st.prog.total == st.prog.complete + left
    requires p == SendRest(left, at, maxLong, env, st)
    ensures RestOK(p, left, at, env.mp)
    decreases left
  {
    hide WriteFunc;
    var w := WriteFunc(if left > maxLong then maxLong else left, env, st);
    if w.ret == OK {
      RestCall(left, maxLong, env, st, w);
      var q := SendRest(left - w.sent, at + w.sent, maxLong, env, w.st);
      if w.sent < left {
        RestComplete(left - w.sent, at + w.sent, maxLong, env, w.st, q);
      }
      ThenOK(w, q, left, at, env.mp);
    }
  }

  /** The part of the phase that decides about the zero-length write: the last one that is not empty. */
  function FinalPart(size: nat, split: bool): nat {
    if size > InlineLen(size, split) then size - InlineLen(size, split)
    else HDR_LEN + InlineLen(size, split)
  }

  /** All bytes are out, and the zero-length write follows them exactly when the final part fills its packets. */
  ghost predicate Complete(d: DataPhase, size: nat, split: bool, base: nat, mp: PacketSize) {
    && d.first == HDR_LEN + InlineLen(size, split)
    && d.rest == size - InlineLen(size, split)
    && d.zeros == if FinalPart(size, split) % mp == 0 then [base + HDR_LEN + size] else []
  }

  /** A data phase that reports success is complete, provided the header write is one block. */
  lemma SendDataComplete(size: nat, split: bool, maxLong: nat, env: Env, base: nat, st: State, d: DataPhase)
    requires Sane(env.mp) && maxLong > 0 && maxLong % env.mp == 0
    requires OneBlock(HDR_LEN + InlineLen(size, split), env.mp)
    requires d == SendData(size, split, maxLong, env, base, st) && d.ret == OK
    ensures Complete(d, size, split, base, env.mp)
  {
    hide WriteFunc, SendRest;
    var n := InlineLen(size, split);
    var w := WriteFunc(HDR_LEN + n, env, Announced(size, st));
    CallInPhase(HDR_LEN + n, env, Announced(size, st));
    OneBlockComplete(HDR_LEN + n, env, Announced(size, st));
    var p := SendRest(size - n, base + w.sent, maxLong, env, w.st);
    if size > n {
      RestComplete(size - n, base + w.sent, maxLong, env, w.st, p);
    }
    CombineComplete(size, split, base, env.mp, w, p);
  }

  lemma CombineComplete(size: nat, split: bool, base: nat, mp: PacketSize, w: Written, p: Phase)
    requires var n := InlineLen(size, split);
      && w.ret == OK && w.sent == HDR_LEN + n
      && (w.zero <==> size <= n && w.sent % mp == 0)
      && (size > n ==> RestOK(p, size - n, base + w.sent, mp))
    requires Combine(w, size <= InlineLen(size, split), base, p).ret == OK
    ensures Complete(Combine(w, size <= InlineLen(size, split), base, p), size, split, base, mp)
  {
  }

  /** The rest is sent or an error is reported, whatever the counters say. */
  lemma {:induction false} RestAll(left: nat, at: nat, maxLong: nat, env: Env, st: State, p: Phase)
    requires maxLong > 0 && p == SendRest(left, at, maxLong, env, st) && p.ret == OK
    ensures p.sent == left
    decreases left
  {
    hide WriteFunc;
    if left > 0 {
      var w := WriteFunc(if left > maxLong then maxLong else left, env, st);
      RestAll(left - w.sent, at + w.sent, maxLong, env, w.st, SendRest(left - w.sent, at + w.sent, maxLong, env, w.st));
    }
  }

  /** Whatever the USB layer does, a phase that reports success can only lack bytes at the end of its first write. */
  lemma OnlyFirstCutShort(size: nat, split: bool, maxLong: nat, env: Env, base: nat, st: State, d: DataPhase)
    requires Sane(env.mp) && maxLong > 0
    requires d == SendData(size, split, maxLong, env, base, st) && d.ret == OK
    ensures 0 < d.first <= HDR_LEN + InlineLen(size, split) && d.rest == size - InlineLen(size, split)
  {
    hide WriteFunc, SendRest;
    var n := InlineLen(size, split);
    var w := WriteFunc(HDR_LEN + n, env, Announced(size, st));
    CallInPhase(HDR_LEN + n, env, Announced(size, st));
    if size > n {
      RestAll(size - n, base + w.sent, maxLong, env, w.st, SendRest(size - n, base + w.sent, maxLong, env, w.st));
    }
  }

  /** For unsplit headers whose full first container fills its packets, only the whole length counts. */
  lemma UnsplitZeroWrite(size: nat, mp: nat)
    requires mp > 0 && (HDR_LEN + PTP_USB_BULK_PAYLOAD_LEN_WRITE) % mp == 0
    ensures FinalPart(size, false) % mp == 0 <==> (HDR_LEN + size) % mp == 0
  {
    if size > InlineLen(size, false) {
      SubMod(HDR_LEN + size, HDR_LEN + PTP_USB_BULK_PAYLOAD_LEN_WRITE, mp);
    }
  }

  // ----- errors

  lemma {:induction false} RestFails(left: nat, at: nat, maxLong: nat, env: Env, st: State, p: Phase)
    requires maxLong > 0 && p == SendRest(left, at, maxLong, env, st)
    ensures st.tick <= p.st.tick && (p.ret == IOError <==> Fails(env, st.tick, p.st.tick))
    ensures p.ret == OK || p.ret == Cancelled || p.ret == IOError
    decreases left
  {
    hide WriteFunc, Fails;
    NoFails(env, st.tick);
    if left > 0 {
      var n := if left > maxLong then maxLong else left;
      var w := WriteFunc(n, env, st);
      WriteFails(n, env, st);
      if w.ret == OK {
        var q := SendRest(left - w.sent, at + w.sent, maxLong, env, w.st);
        RestFails(left - w.sent, at + w.sent, maxLong, env, w.st, q);
        FailsOn(env, st.tick, w.st.tick, q.st.tick);
      }
    }
  }

  /** A phase ends with an I/O error exactly if the USB layer reported one, and else is done or cancelled. */
  lemma SendDataFails(size: nat, split: bool, maxLong: nat, env: Env, base: nat, st: State, d: DataPhase)
    requires maxLong > 0 && d == SendData(size, split, maxLong, env, base, st)
    ensures st.tick <= d.st.tick && (d.ret == IOError <==> Fails(env, st.tick, d.st.tick))
    ensures d.ret == OK || d.ret == Cancelled || d.ret == IOError
  {
    hide WriteFunc, SendRest, Fails;
    var n := InlineLen(size, split);
    var w := WriteFunc(HDR_LEN + n, env, Announced(size, st));
    WriteFails(HDR_LEN + n, env, Announced(size, st));
    if w.ret == OK && size > n {
      var p := SendRest(size - n, base + w.sent, maxLong, env, w.st);
      RestFails(size - n, base + w.sent, maxLong, env, w.st, p);
      FailsOn(env, st.tick, w.st.tick, p.st.tick);
    }
  }

  // ----- or not

  /** No behaviour of the USB layer can make a data phase succeed without sending everything. */
  ghost predicate NeverLoses(size: nat, split: bool, maxLong: nat, mp: PacketSize)
    requires maxLong > 0
  {
    forall env: Env, base: nat, st: State :: env.mp == mp && SendData(size, split, maxLong, env, base, st).ret == OK ==>
      AllSent(size, SendData(size, split, maxLong, env, base, st))
  }

  ghost predicate AllSent(size: nat, d: DataPhase) {
    d.first + d.rest == HDR_LEN + size
  }

  /** Exactly when: the count of the header write is never looked at, so it has to be a single block. */
  lemma NeverLosesExactly(size: nat, split: bool, maxLong: nat, mp: PacketSize)
    requires Sane(mp) && mp >= 2 && maxLong > 0 && maxLong % mp == 0
    ensures NeverLoses(size, split, maxLong, mp) <==> OneBlock(HDR_LEN + InlineLen(size, split), mp)
  {
    if OneBlock(HDR_LEN + InlineLen(size, split), mp) {
      forall env: Env, base: nat, st: State | env.mp == mp && SendData(size, split, maxLong, env, base, st).ret == OK
        ensures AllSent(size, SendData(size, split, maxLong, env, base, st))
      {
        SendDataComplete(size, split, maxLong, env, base, st, SendData(size, split, maxLong, env, base, st));
      }
    } else {
      LosingSchedule(size, split, maxLong, mp);
    }
  }

  /** The USB layer takes one byte of the header write, then whatever it is given. */
  lemma LosingSchedule(size: nat, split: bool, maxLong: nat, mp: PacketSize)
    requires Sane(mp) && mp >= 2 && maxLong > 0
    requires !OneBlock(HDR_LEN + InlineLen(size, split), mp)
    ensures !NeverLoses(size, split, maxLong, mp)
  {
    var env := Env(mp, [Sent(1)], {});
    var base: nat, st := 0, State(0, Progress(false, 0, 0, false, []));
    LosingRun(size, split, maxLong, env, base, st, SendData(size, split, maxLong, env, base, st));
    assert !AllSent(size, SendData(size, split, maxLong, env, base, st));
  }

  lemma LosingRun(size: nat, split: bool, maxLong: nat, env: Env, base: nat, st: State, d: DataPhase)
    requires Sane(env.mp) && env.mp >= 2 && maxLong > 0
    requires !OneBlock(HDR_LEN + InlineLen(size, split), env.mp)
    requires !st.prog.callback && Answer(env, st.tick) == Sent(1)
    requires forall t :: t > st.tick ==> Answer(env, t) == Sent(CONTEXT_BLOCK_SIZE)
    requires d == SendData(size, split, maxLong, env, base, st)
    ensures d.ret == OK && !AllSent(size, d)
  {
    hide WriteFunc, SendRest;
    var n := InlineLen(size, split);
    var w := WriteFunc(HDR_LEN + n, env, Announced(size, st));
    LosingFirst(HDR_LEN + n, env, Announced(size, st));
    var p := SendRest(size - n, base + w.sent, maxLong, env, w.st);
    GenerousRest(size - n, base + w.sent, maxLong, env, w.st, p);
  }

  lemma {:induction false} GenerousRest(left: nat, at: nat, maxLong: nat, env: Env, st: State, p: Phase)
    requires Generous(env, st) && maxLong > 0
    requires p == SendRest(left, at, maxLong, env, st)
    ensures p.ret == OK
    decreases left
  {
    hide WriteFunc;
    if left > 0 {
      var n := if left > maxLong then maxLong else left;
      GenerousCall(n, env, st);
      var w := WriteFunc(n, env, st);
      GenerousRest(left - n, at + n, maxLong, env, w.st, SendRest(left - n, at + n, maxLong, env, w.st));
    }
  }
}
