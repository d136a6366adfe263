/** The sender with uint32 sequence numbers is the image, modulo 2^32, of the sender with
  * unbounded ones: every routine commutes with wrapping, in every state.
  */
module WrapSender {
  import opened Packets
  import opened Seqnum
  import opened Sender
  import opened WrapReceiver
  import SR = SenderRuns

  function WrapSeg(g: Segment): Segment {
    g.(num := Wire(g.num))
  }

  function WrapRecovery(f: Recovery): Recovery {
    f.(first := Wire(f.first), last := Wire(f.last))
  }

  function WrapSnd(s: State): State {
    s.(una := Wire(s.una), nxt := Wire(s.nxt), nxtList := Wire(s.nxtList), inQueue := Wire(s.inQueue),
       list := Map(WrapSeg, s.list), queue := Map(WrapSeg, s.queue), fr := WrapRecovery(s.fr),
       rttNum := Wire(s.rttNum), out := Map(WrapPacket, s.out))
  }

  // ----- sending

  lemma EmitWraps(s: State, p: Packet, now: int)
    ensures WrapSnd(Emit(s, p, now)) == Emit(WrapSnd(s), WrapPacket(p), now)
  {
    hide Wire;
    TestsOnWire(p.num, s.rttNum);
    MapAppend(WrapPacket, s.out, [p]);
    assert Map(WrapPacket, [p]) == [WrapPacket(p)];
  }

  lemma BumpWraps(s: State, end: int)
    ensures WrapSnd(Bump(s, end)) == Bump(WrapSnd(s), Wire(end))
  {
    hide Wire;
    TestsOnWire(s.nxt, end);
  }

  lemma NumberedWraps(s: State, g: Segment)
    ensures WrapSeg(Numbered(s, g)) == Numbered(WrapSnd(s), WrapSeg(g))
  {
    hide Wire;
  }

  lemma WindowEndWraps(s: State)
    ensures WindowEnd(Uint32, WrapSnd(s)) == Wire(WindowEnd(Unbounded, s))
  {
    hide Wire;
    AddWraps(s.una, s.wnd);
  }

  lemma PieceWraps(s: State, g: Segment)
    ensures Piece(Uint32, WrapSnd(s), WrapSeg(g)) == Piece(Unbounded, s, g)
  {
    hide Wire, WindowEnd;
    WindowEndWraps(s);
    TestsOnWire(g.num, WindowEnd(Unbounded, s));
  }

  /** A segment goes out: the shared end of SendFin and SendBytes. */
  lemma EmitBumpWraps(e: State, p: Packet, now: int, k: int)
    ensures WrapSnd(Bump(Emit(e, p, now), Add(Unbounded, p.num, k)))
      == Bump(Emit(WrapSnd(e), WrapPacket(p), now), Add(Uint32, Wire(p.num), k))
  {
    hide Wire, WrapSnd, Emit, Bump;
    EmitWraps(e, p, now);
    AddWraps(p.num, k);
    BumpWraps(Emit(e, p, now), Add(Unbounded, p.num, k));
  }

  lemma SendFinWraps(s: State, g: Segment, now: int)
    requires s.writeNext < |s.list|
    ensures WrapSnd(SendFin(Unbounded, s, g, now)) == SendFin(Uint32, WrapSnd(s), WrapSeg(g), now)
  {
    hide Wire, Emit, Bump;
    var e := s.(list := s.list[s.writeNext := g.(mark := Fin)], writeNext := s.writeNext + 1);
    MapUpdate(WrapSeg, s.list, s.writeNext, g.(mark := Fin));
    assert WrapSnd(e) == WrapSnd(s).(list := WrapSnd(s).list[s.writeNext := WrapSeg(g).(mark := Fin)],
      writeNext := s.writeNext + 1);
    EmitBumpWraps(e, Packet(g.num, [], true), now, 1);
  }

  lemma CutWraps(list: seq<Segment>, i: nat, g: Segment, n: nat)
    requires i < |list|
    ensures Map(WrapSeg, Cut(Unbounded, list, i, g, n)) == Cut(Uint32, Map(WrapSeg, list), i, WrapSeg(g), n)
  {
    hide Wire;
    if |g.data| > n {
      AddWraps(g.num, n);
    }
  }

  lemma SendBytesWraps(s: State, g: Segment, now: int)
    requires s.writeNext < |s.list|
    ensures WrapSnd(SendBytes(Unbounded, s, g, now)) == SendBytes(Uint32, WrapSnd(s), WrapSeg(g), now)
  {
    hide Wire, Emit, Bump, Cut, Piece;
    PieceWraps(s, g);
    var n := Piece(Unbounded, s, g);
    var data := if |g.data| > n then g.data[..n] else g.data;
    var e := s.(list := Cut(Unbounded, s.list, s.writeNext, g, n), writeNext := s.writeNext + 1,
                outstanding := s.outstanding + 1);
    CutWraps(s.list, s.writeNext, g, n);
    EmitBumpWraps(e, Packet(g.num, data, false), now, |data|);
  }

  function WrapTurn(t: Turn): Turn {
    match t
    case Go(s) => Go(WrapSnd(s))
    case Halt(s) => Halt(WrapSnd(s))
  }

  lemma SendOneWraps(s: State, now: int)
    requires s.writeNext < |s.list|
    ensures WrapTurn(SendOne(Unbounded, s, now)) == SendOne(Uint32, WrapSnd(s), now)
  {
    hide Wire, SendFin, SendBytes, WindowEnd, Numbered, LessThan;
    var g := Numbered(s, s.list[s.writeNext]);
    NumberedWraps(s, s.list[s.writeNext]);
    if |g.data| == 0 {
      if s.writeNext == |s.list| - 1 {
        SendFinWraps(s, g, now);
      }
    } else if !g.mark.Fin? {
      WindowEndWraps(s);
      TestsOnWire(g.num, WindowEnd(Unbounded, s));
      if LessThan(g.num, WindowEnd(Unbounded, s)) {
        SendBytesWraps(s, g, now);
      } else {
        MapUpdate(WrapSeg, s.list, s.writeNext, g);
      }
    }
  }

  lemma FlagsWrap(s: State)
    ensures var t := WrapSnd(s);
      && |t.list| == |s.list| && |t.queue| == |s.queue| && t.writeNext == s.writeNext
      && t.outstanding == s.outstanding && t.cwnd == s.cwnd && t.timer == s.timer && t.rto == s.rto
      && t.fr.active == s.fr.active && t.maxPayload == s.maxPayload
  {
  }

  lemma Turns(s: State, now: int)
    requires s.writeNext < |s.list| && s.outstanding < s.cwnd && SendOne(Unbounded, s, now).Go?
    ensures var t := SendOne(Unbounded, s, now).s;
      && t.cwnd == s.cwnd
      && (t.outstanding == s.outstanding + 1
          || (t.outstanding == s.outstanding && |t.list| - t.writeNext < |s.list| - s.writeNext))
  {
    hide Wire, WindowEnd, Piece, Cut;
  }

  lemma {:induction false} SendLoopWraps(s: State, now: int)
    ensures WrapSnd(SendLoop(Unbounded, s, now)) == SendLoop(Uint32, WrapSnd(s), now)
    decreases Max(0, s.cwnd - s.outstanding), |s.list| - s.writeNext
  {
    hide Wire, WrapSnd, SendOne;
    FlagsWrap(s);
    if s.writeNext < |s.list| && s.outstanding < s.cwnd {
      SendOneWraps(s, now);
      match SendOne(Unbounded, s, now) {
        case Halt(t) =>
        case Go(t) =>
          Turns(s, now);
          SendLoopWraps(t, now);
      }
    }
  }

  lemma SendDataWraps(s: State, now: int)
    ensures WrapSnd(SendData(Unbounded, s, now)) == SendData(Uint32, WrapSnd(s), now)
  {
    hide Wire, SendLoop;
    var r := RestartIdle(s, now);
    assert WrapSnd(r) == RestartIdle(WrapSnd(s), now);
    SendLoopWraps(r, now);
    var t := SendLoop(Unbounded, r, now);
    TestsOnWire(t.una, t.nxt);
  }

  lemma SendEmptyWraps(s: State, now: int)
    ensures WrapSnd(SendEmpty(s, now)) == SendEmpty(WrapSnd(s), now)
  {
    hide Wire, Emit;
    EmitWraps(s, Packet(s.nxt, [], false), now);
  }

  // ----- Write, Shutdown, and moving what they queued

  lemma EnqueueWraps(s: State, v: seq<byte>)
    ensures Map(WrapSeg, s.queue + [Segment(v, 0, Unset)]) == Map(WrapSeg, s.queue) + [Segment(v, 0, Unset)]
  {
    MapAppend(WrapSeg, s.queue, [Segment(v, 0, Unset)]);
  }

  lemma WriteWraps(s: State, data: seq<byte>)
    ensures WrapSnd(Write(Unbounded, s, data)) == Write(Uint32, WrapSnd(s), data)
  {
    hide Wire;
    var avail := s.bufSize - s.bufUsed;
    if |data| != 0 && !s.sndClosed && avail > 0 {
      var v := data[..Min(avail, |data|)];
      EnqueueWraps(s, v);
      AddWraps(s.inQueue, |v|);
    }
  }

  lemma ShutdownWraps(s: State)
    ensures WrapSnd(Shutdown(Unbounded, s)) == Shutdown(Uint32, WrapSnd(s))
  {
    hide Wire;
    EnqueueWraps(s, []);
    AddWraps(s.inQueue, 1);
  }

  lemma AddBoth(v: int, k: int)
    ensures Add(Uint32, Wire(v), Wire(k)) == Wire(Add(Unbounded, v, k))
  {
    hide Wire;
    WireCongruent(k, Wire(v));
    WireCongruent(v, k);
  }

  lemma MoveQueueWraps(s: State)
    ensures WrapSnd(MoveQueue(Unbounded, s)) == MoveQueue(Uint32, WrapSnd(s))
  {
    hide Wire, Add;
    AddBoth(s.nxtList, s.inQueue);
    MapAppend(WrapSeg, s.list, s.queue);
    assert Wire(0) == 0 by { WireZero(); }
    assert Map(WrapSeg, []) == [];
  }

  lemma WireZero()
    ensures Wire(0) == 0
  {
  }

  lemma HandleWriteWraps(s: State, now: int)
    ensures WrapSnd(HandleWrite(Unbounded, s, now)) == HandleWrite(Uint32, WrapSnd(s), now)
  {
    hide Wire, WrapSnd, MoveQueue, SendData;
    MoveQueueWraps(s);
    SendDataWraps(MoveQueue(Unbounded, s), now);
  }

  lemma HandleCloseWraps(s: State, now: int)
    ensures WrapSnd(HandleClose(Unbounded, s, now)) == HandleClose(Uint32, WrapSnd(s), now)
  {
    hide Wire, HandleWrite;
    HandleWriteWraps(s, now);
  }

  // ----- acknowledgements

  /** Congestion control neither reads nor writes a sequence number. */
  lemma CongestionFieldsWrap(s: State, cwnd: int, caAck: int)
    ensures WrapSnd(s.(cwnd := cwnd, caAck := caAck)) == WrapSnd(s).(cwnd := cwnd, caAck := caAck)
    ensures WrapSnd(s).cwnd == s.cwnd && WrapSnd(s).caAck == s.caAck && WrapSnd(s).ssthresh == s.ssthresh
  {
  }

  lemma AvoidanceWraps(s: State, acked: int)
    ensures WrapSnd(Avoidance(s, acked)) == Avoidance(WrapSnd(s), acked)
  {
    hide Wire, WrapSnd, Grow;
    CongestionFieldsWrap(s, s.cwnd, s.caAck);
    var t := Avoidance(s, acked);
    CongestionFieldsWrap(s, t.cwnd, t.caAck);
  }

  lemma RenoWraps(s: State, acked: int)
    ensures WrapSnd(RenoUpdate(s, acked)) == RenoUpdate(WrapSnd(s), acked)
  {
    hide Wire, WrapSnd, Avoidance;
    CongestionFieldsWrap(s, s.cwnd, s.caAck);
    AvoidanceWraps(s, acked);
    if s.cwnd < s.ssthresh {
      var (t, left) := SlowStart(s, acked);
      CongestionFieldsWrap(s, t.cwnd, t.caAck);
      AvoidanceWraps(t, left);
    }
  }

  lemma MeasureRttWraps(s: State, ack: int, now: int)
    ensures WrapSnd(MeasureRtt(s, ack, now)) == MeasureRtt(WrapSnd(s), Wire(ack), now)
  {
    hide Wire;
    TestsOnWire(s.rttNum, ack);
    assert WrapSnd(UpdateRto(s, now - s.rttTime)) == UpdateRto(WrapSnd(s), now - s.rttTime);
  }

  /** Every test of an acknowledgement number that checkDuplicateAck makes. */
  lemma AckTestsWrap(s: State, ack: int)
    ensures var t := WrapSnd(s);
      && InRange(Wire(ack), t.una, t.nxt + 1) == InRange(ack, s.una, s.nxt + 1)
      && InRange(Wire(ack) - 1, t.una, t.nxt) == InRange(ack - 1, s.una, s.nxt)
      && LessThan(t.fr.last, Wire(ack)) == LessThan(s.fr.last, ack)
      && Eq(Wire(ack), t.fr.first) == Eq(ack, s.fr.first)
      && Eq(Wire(ack), t.una) == Eq(ack, s.una) && Eq(Wire(ack), t.nxt) == Eq(ack, s.nxt)
      && Size(t.una, Wire(ack)) == Size(s.una, ack)
  {
    hide Wire, LessThan;
    TestsOnWire(s.una, ack);
    TestsOnWire(s.una, s.nxt);
    TestsShifted(s.una, s.nxt, 1);
    TestsShifted(s.una, ack, -1);
    TestsOnWire(s.fr.last, ack);
    EqOnWire(ack, s.fr.first);
    EqOnWire(ack, s.una);
    EqOnWire(ack, s.nxt);
  }

  function WrapVerdict(v: Verdict): Verdict {
    v.(fr := WrapRecovery(v.fr))
  }

  lemma JudgeWraps(s: State, ack: int, wnd: int, len: nat)
    ensures Judge(Uint32, WrapSnd(s), Wire(ack), wnd, len) == WrapVerdict(Judge(Unbounded, s, ack, wnd, len))
  {
    hide Wire, LessThan, InRange, Eq, Add;
    AckTestsWrap(s, ack);
    AddWraps(s.nxt, -1);
    WireZero();
  }

  lemma VerdictWraps(s: State, v: Verdict)
    ensures WrapSnd(s.(cwnd := v.cwnd, ssthresh := v.ssthresh, dupAcks := v.dupAcks, fr := v.fr))
      == WrapSnd(s).(cwnd := v.cwnd, ssthresh := v.ssthresh, dupAcks := v.dupAcks, fr := WrapRecovery(v.fr))
  {
    hide Wire, WrapRecovery;
  }

  lemma CheckDuplicateWraps(s: State, ack: int, wnd: int, len: nat)
    ensures var (t, rtx) := CheckDuplicate(Unbounded, s, ack, wnd, len);
      CheckDuplicate(Uint32, WrapSnd(s), Wire(ack), wnd, len) == (WrapSnd(t), rtx)
  {
    hide Wire, Judge, WrapSnd;
    JudgeWraps(s, ack, wnd, len);
    VerdictWraps(s, Judge(Unbounded, s, ack, wnd, len));
  }

  lemma {:induction false} PopWraps(list: seq<Segment>, left: nat)
    ensures var p := Pop(list, left); Pop(Map(WrapSeg, list), left) == p.(list := Map(WrapSeg, p.list))
    decreases |list|
  {
    hide Wire;
    if left > 0 && |list| > 0 {
      var len := list[0].LogicalLen();
      MapSlice(WrapSeg, list, 1, |list|);
      if len > left {
        MapAppend(WrapSeg, [list[0].(data := Drop(list[0].data, left))], list[1..]);
      } else {
        PopWraps(list[1..], left - len);
      }
    }
  }

  lemma TakeOffWraps(s: State, ack: int, acked: int, p: Popped)
    ensures WrapSnd(TakeOff(s, ack, acked, p))
      == TakeOff(WrapSnd(s), Wire(ack), acked, p.(list := Map(WrapSeg, p.list)))
  {
    hide Wire;
  }

  lemma OutstandingWraps(s: State, n: int)
    ensures WrapSnd(s.(outstanding := n)) == WrapSnd(s).(outstanding := n)
  {
    hide Wire;
  }

  lemma AcknowledgeWraps(s: State, ack: int)
    ensures WrapSnd(Acknowledge(s, ack)) == Acknowledge(WrapSnd(s), Wire(ack))
  {
    hide Wire, Map, WrapSnd, RenoUpdate, Pop, TakeOff, Size;
    AckTestsWrap(s, ack);
    ListWraps(s);
    var acked := Size(s.una, ack);
    PopWraps(s.list, acked);
    var t := TakeOff(s, ack, acked, Pop(s.list, acked));
    TakeOffWraps(s, ack, acked, Pop(s.list, acked));
    FlagsWrap(s);
    FlagsWrap(t);
    RenoWraps(t, s.outstanding - t.outstanding);
    var u := if t.fr.active then t else RenoUpdate(t, s.outstanding - t.outstanding);
    FlagsWrap(u);
    OutstandingWraps(u, Max(u.outstanding, 0));
  }

  lemma ListWraps(s: State)
    ensures WrapSnd(s).list == Map(WrapSeg, s.list)
  {
  }

  lemma ResendWraps(s: State, now: int)
    ensures WrapSnd(Resend(s, now)) == Resend(WrapSnd(s), now)
  {
    hide Wire, Emit;
    var t := s.(rttNum := s.nxt);
    if |t.list| > 0 {
      EmitWraps(t, Packet(t.list[0].num, t.list[0].data, t.list[0].mark.Fin?), now);
    }
  }

  lemma SetWnd(s: State, wnd: int)
    ensures WrapSnd(s.(wnd := wnd)) == WrapSnd(s).(wnd := wnd)
  {
  }

  lemma TakeAckWraps(s: State, ack: int, wnd: int, len: nat, now: int)
    ensures var (t, rtx) := TakeAck(Unbounded, s, ack, wnd, len, now);
      TakeAck(Uint32, WrapSnd(s), Wire(ack), wnd, len, now) == (WrapSnd(t), rtx)
  {
    hide Wire, WrapSnd, CheckDuplicate, MeasureRtt, Acknowledge, InRange;
    MeasureRttWraps(s, ack, now);
    CheckDuplicateWraps(MeasureRtt(s, ack, now), ack, wnd, len);
    var d := CheckDuplicate(Unbounded, MeasureRtt(s, ack, now), ack, wnd, len).0;
    SetWnd(d, wnd);
    AckTestsWrap(d.(wnd := wnd), ack);
    AcknowledgeWraps(d.(wnd := wnd), ack);
  }

  /** handleRcvdSegment on uint32 numbers, in every state and for every acknowledgement. */
  lemma HandleAckWraps(s: State, ack: int, wnd: int, len: nat, now: int)
    ensures WrapSnd(HandleAck(Unbounded, s, ack, wnd, len, now)) ==
      HandleAck(Uint32, WrapSnd(s), Wire(ack), wnd, len, now)
  {
    hide Wire, WrapSnd, TakeAck, Resend, SendData;
    TakeAckWraps(s, ack, wnd, len, now);
    var (t, rtx) := TakeAck(Unbounded, s, ack, wnd, len, now);
    ResendWraps(t, now);
    SendDataWraps(if rtx then Resend(t, now) else t, now);
  }

  // ----- the retransmit timer and the path's MTU

  lemma BackoffWraps(s: State)
    ensures WrapSnd(Backoff(Unbounded, s)) == Backoff(Uint32, WrapSnd(s))
  {
    hide Wire, Add;
    AddWraps(s.nxt, -1);
    WireZero();
  }

  lemma TimerExpiredWraps(s: State, now: int)
    ensures var (t, alive) := TimerExpired(Unbounded, s, now);
      TimerExpired(Uint32, WrapSnd(s), now) == (WrapSnd(t), alive)
  {
    hide Wire, Backoff, SendData;
    var t := s.(timer := s.timer.(wake := false).CheckExpiration(now).0);
    BackoffWraps(t);
    SendDataWraps(Backoff(Unbounded, t), now);
  }

  lemma {:induction false} FirstTooLongWraps(list: seq<Segment>, writeNext: nat, size: int, i: nat)
    requires i <= writeNext
    ensures FirstTooLong(Map(WrapSeg, list), writeNext, size, i) == FirstTooLong(list, writeNext, size, i)
    decreases writeNext - i
  {
    hide Wire;
    if i < writeNext && i < |list| && |list[i].data| <= size {
      FirstTooLongWraps(list, writeNext, size, i + 1);
    }
  }

  lemma NewMtuWraps(s: State, mtu: int, optionLen: nat, count: nat, now: int)
    ensures WrapSnd(NewMtu(Unbounded, s, mtu, optionLen, count, now)) ==
      NewMtu(Uint32, WrapSnd(s), mtu, optionLen, count, now)
  {
    hide Wire, SendData, FirstTooLong;
    var m := mtu - TCP_HEADER - optionLen;
    if m < s.maxPayload {
      var size := if m <= 0 then 1 else m;
      FirstTooLongWraps(s.list, s.writeNext, size, 0);
      SendDataWraps(s.(maxPayload := size, outstanding := Max(s.outstanding - count, 0),
                     writeNext := FirstTooLong(s.list, s.writeNext, size, 0)), now);
    }
  }

  // ----- events and runs

  function WrapEvent(e: SR.Event): SR.Event {
    if e.AckComes? then e.(number := Wire(e.number)) else e
  }

  lemma TimerSame(s: State)
    ensures WrapSnd(s).timer == s.timer
  {
  }

  lemma FiresWraps(s: State, now: int)
    ensures WrapSnd(SR.Step(Unbounded, s, SR.Fires, now).0) == SR.Step(Uint32, WrapSnd(s), SR.Fires, now).0
  {
    hide Wire;
  }

  /** One event of the sender, in every state. */
  lemma StepWraps(s: State, e: SR.Event, now: int)
    ensures var (t, alive) := SR.Step(Unbounded, s, e, now);
      SR.Step(Uint32, WrapSnd(s), WrapEvent(e), now) == (WrapSnd(t), alive)
  {
    hide Wire, WrapSnd, Write, Shutdown, HandleWrite, HandleClose, TimerExpired, NewMtu, SendEmpty, HandleAck;
    match e {
      case WriteCall(data) => WriteWraps(s, data);
      case ShutdownCall => ShutdownWraps(s);
      case WriteWakes => HandleWriteWraps(s, now);
      case CloseWakes => HandleCloseWraps(s, now);
      case Fires => FiresWraps(s, now);
      case TimerWakes =>
        TimerSame(s);
        TimerExpiredWraps(s, now);
      case MtuChanges(mtu, optionLen, count) => NewMtuWraps(s, mtu, optionLen, count, now);
      case EmptyGoes => SendEmptyWraps(s, now);
      case AckComes(number, wnd, len) => HandleAckWraps(s, number, wnd, len, now);
    }
  }
}
