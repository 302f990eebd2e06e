/** The callback discipline of TransferProgress over whole phases and over any sequence of calls. */
module PhaseProgress {
  import opened Bytes
  import opened Containers
  import opened TransferProgress
  import opened Usb
  import opened BulkRead
  import opened BulkWrite
  import opened Phases
  import DataPhase

  // ----- any sequence of calls

  datatype Call = Writes(size: nat) | Reads(size: nat, readzero: bool)

  /** Writes done so far, packets still to come, and the counters. */
  datatype Stage = Stage(tick: nat, queue: seq<Packet>, prog: Progress)

  function Perform(call: Call, env: Env, dev: Device, stage: Stage): Stage {
    match call
    case Writes(size) =>
      var w := WriteFunc(size, env, State(stage.tick, stage.prog));
      Stage(w.st.tick, stage.queue, w.st.prog)
    case Reads(size, readzero) =>
      var e := ReadFunc(dev, size, readzero, stage.queue, stage.prog);
      Stage(stage.tick, e.queue, e.prog)
  }

  function PerformAll(calls: seq<Call>, env: Env, dev: Device, stage: Stage): Stage
    decreases |calls|
  {
    if calls == [] then stage else PerformAll(calls[1..], env, dev, Perform(calls[0], env, dev, stage))
  }

  /** Whatever calls a phase makes, whatever becomes of them: the callback is disciplined over all of them together. */
  lemma {:induction false} CallsDisciplined(calls: seq<Call>, env: Env, dev: Device, stage: Stage)
    requires Orderly(stage.prog)
    ensures Disciplined(stage.prog, PerformAll(calls, env, dev, stage).prog)
    decreases |calls|
  {
    hide WriteFunc, ReadFunc, Orderly;
    if calls != [] {
      match calls[0] {
        case Writes(size) => WriteFuncOrderly(size, env, State(stage.tick, stage.prog));
        case Reads(size, readzero) => ReadFuncOrderly(dev, size, readzero, stage.queue, stage.prog);
      }
      var next := Perform(calls[0], env, dev, stage);
      CallsDisciplined(calls[1..], env, dev, next);
      DisciplinedOn(stage.prog, next.prog, PerformAll(calls[1..], env, dev, next).prog);
    }
  }

  // ----- the data phase out

  lemma {:induction false} RestDisciplined(left: nat, at: nat, maxLong: nat, env: Env, st: State, p: DataPhase.Phase)
    requires maxLong > 0 && Orderly(st.prog)
    requires p == DataPhase.SendRest(left, at, maxLong, env, st)
    ensures Disciplined(st.prog, p.st.prog)
    decreases left
  {
    hide WriteFunc, Orderly;
    if left > 0 {
      var n := if left > maxLong then maxLong else left;
      var w := WriteFunc(n, env, st);
      WriteFuncOrderly(n, env, st);
      if w.ret == OK && w.sent > 0 {
        var q := DataPhase.SendRest(left - w.sent, at + w.sent, maxLong, env, w.st);
        RestDisciplined(left - w.sent, at + w.sent, maxLong, env, w.st, q);
        DisciplinedOn(st.prog, w.st.prog, q.st.prog);
      }
    }
  }

  /** From the announcement of the total on, header and payload together keep the discipline. */
  lemma SendDataDisciplined(size: nat, split: bool, maxLong: nat, env: Env, base: nat, st: State,
    d: DataPhase.DataPhase)
    requires maxLong > 0 && st.prog.reported == []
    requires d == DataPhase.SendData(size, split, maxLong, env, base, st)
    ensures Disciplined(DataPhase.Announced(size, st).prog, d.st.prog)
  {
    hide WriteFunc, DataPhase.SendRest;
    var n := DataPhase.InlineLen(size, split);
    var st0 := DataPhase.Announced(size, st);
    var w := WriteFunc(HDR_LEN + n, env, st0);
    WriteFuncOrderly(HDR_LEN + n, env, st0);
    var p := DataPhase.SendRest(size - n, base + w.sent, maxLong, env, w.st);
    RestDisciplined(size - n, base + w.sent, maxLong, env, w.st, p);
    DisciplinedOn(st0.prog, w.st.prog, p.st.prog);
  }

  // ----- the data and response phases in

  lemma Same(p: Progress)
    requires Orderly(p)
    ensures Disciplined(p, p)
  {
  }

  lemma PacketDisciplined(dev: Device, link: Link, r: PacketRead)
    requires Orderly(link.prog) && r == GetPacket(dev, link)
    ensures Disciplined(link.prog, r.link.prog)
  {
    hide ReadFunc, Orderly;
    Same(link.prog);
    ReadFuncOrderly(dev, dev.mp, false, link.queue, link.prog);
  }

  lemma {:induction false} DrainDisciplined(dev: Device, link: Link, r: PacketRead)
    requires Orderly(link.prog) && r == Drain(dev, link)
    ensures Disciplined(link.prog, r.link.prog)
    decreases |link.queue|
  {
    hide ReadFunc, Orderly;
    var e := ReadFunc(dev, LONG_READ, false, link.queue, link.prog);
    ReadFuncOrderly(dev, LONG_READ, false, link.queue, link.prog);
    var link' := link.(queue := e.queue, prog := e.prog);
    if e.ret == OK && |e.got| >= LONG_READ {
      DrainDisciplined(dev, link', Drain(dev, link'));
      DisciplinedOn(link.prog, e.prog, Drain(dev, link').link.prog);
    }
  }

  lemma LongDisciplined(dev: Device, packet: seq<Byte>, length: nat, link: Link)
    requires |packet| >= HDR_LEN && Orderly(link.prog)
    ensures Disciplined(link.prog, GetLongData(dev, packet, length, link).link.prog)
  {
    hide Orderly, Drain;
    Same(link.prog);
    DrainDisciplined(dev, link, Drain(dev, link));
  }

  lemma ShortDisciplined(dev: Device, packet: seq<Byte>, length: nat, link: Link)
    requires |packet| >= HDR_LEN && length >= HDR_LEN && Orderly(link.prog)
    ensures Disciplined(link.prog, GetShortData(dev, packet, length, link).link.prog)
  {
    hide Orderly, ReadFunc;
    Same(link.prog);
    var rlen := if |packet| > length then length else |packet|;
    var split := link.split || (length > HDR_LEN && rlen == HDR_LEN);
    ReadFuncOrderly(dev, length - rlen, true, BehindHeader(dev, length, split, link.queue), link.prog);
  }

  /** The data phase in keeps the discipline, however it ends. */
  lemma GetDataDisciplined(dev: Device, code: int, link: Link)
    requires Orderly(link.prog)
    ensures Disciplined(link.prog, GetData(dev, code, link).link.prog)
  {
    hide Orderly, GetPacket, GetLongData, GetShortData, Overlay, Zeroed;
    var r := GetPacket(dev, link);
    PacketDisciplined(dev, link, r);
    var d := GetData(dev, code, link);
    if |r.packet| >= HDR_LEN {
      var length := Get32(Overlay(Zeroed(), r.packet), 0);
      LongDisciplined(dev, r.packet, length, r.link);
      DisciplinedOn(link.prog, r.link.prog, GetLongData(dev, r.packet, length, r.link).link.prog);
      if length >= HDR_LEN {
        ShortDisciplined(dev, r.packet, length, r.link);
        DisciplinedOn(link.prog, r.link.prog, GetShortData(dev, r.packet, length, r.link).link.prog);
      }
    }
  }

  lemma {:induction false} NextDisciplined(dev: Device, buffer: seq<Byte>, start: Progress, p: PacketRead)
    requires |buffer| == CONTAINER_SIZE && Disciplined(start, p.link.prog)
    ensures Disciplined(start, NextResponse(dev, buffer, p).link.prog)
    decreases Waiting(p.link)
  {
    hide Orderly, GetPacket, Overlay;
    if p.ret == OK {
      var usbresp := Overlay(buffer, p.packet);
      if |p.packet| < HDR_LEN && Get32(usbresp, 0) == 0 {
        var p' := GetPacket(dev, p.link);
        PacketDisciplined(dev, p.link, p');
        DisciplinedOn(start, p.link.prog, p'.link.prog);
        if p'.ret == OK {
          NextDisciplined(dev, usbresp, start, p');
        }
      }
    }
  }

  /** So does the response phase. */
  lemma GetRespDisciplined(dev: Device, asked: int, lastTrans: int, link: Link)
    requires Orderly(link.prog)
    ensures Disciplined(link.prog, GetResp(dev, asked, lastTrans, link).link.prog)
  {
    hide Orderly, GetPacket, NextResponse;
    var p := GetPacket(dev, link);
    PacketDisciplined(dev, link, p);
    NextDisciplined(dev, Zeroed(), link.prog, p);
  }
}
