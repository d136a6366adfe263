/** The sender as the object that protocol/transport/tcp/snd.go makes of it, with the
  * endpoint's send queue: methods that update fields, each proved to do exactly what the
  * corresponding function of module Sender says, on uint32 sequence numbers.
  */
module SenderObject {
  import opened Packets
  import opened Seqnum
  import S = Sender
  import Timer

  class Sender {
    var sndUna: int
    var sndNxt: int
    var sndNxtList: int
    var sndWnd: int
    var writeList: seq<S.Segment>
    var writeNext: nat
    var sndQueue: seq<S.Segment>
    var sndBufInQueue: int
    var sndBufUsed: int
    var sndBufSize: int
    var sndClosed: bool
    var closed: bool
    var sndCwnd: int
    var sndSsthresh: int
    var sndCAAckCount: int
    var outstanding: int
    var dupAckCount: int
    var fr: S.Recovery
    var maxPayloadSize: int
    var rttMeasureSeqNum: int
    var rttMeasureTime: int
    var srtt: int
    var rttvar: int
    var srttInited: bool
    var rto: int
    var lastSendTime: int
    const resendTimer: Timer.TcpTimer
    var panicked: bool
    ghost var written: seq<byte>
    ghost var sent: seq<Packet>

    ghost function State(): S.State
      reads this, resendTimer
    {
      S.State(sndUna, sndNxt, sndNxtList, sndWnd, writeList, writeNext, sndQueue, sndBufInQueue, sndBufUsed, sndBufSize,
              sndClosed, closed, written, sndCwnd, sndSsthresh, sndCAAckCount, outstanding, dupAckCount, fr,
              maxPayloadSize, rttMeasureSeqNum, rttMeasureTime, srtt, rttvar, srttInited, rto,
              lastSendTime, resendTimer.Value(), sent, panicked)
    }

    constructor (una: int, wnd: int, mss: int, bufSize: int)
      ensures State() == S.Init(una, wnd, mss, bufSize, Uint32) && fresh(resendTimer)
    {
      sndUna, sndNxt, sndNxtList, sndWnd := una, una, una, wnd;
      writeList, writeNext, sndQueue := [], 0, [];
      sndBufInQueue, sndBufUsed, sndBufSize := 0, 0, bufSize;
      sndClosed, closed, panicked := false, false, false;
      sndCwnd, sndSsthresh, sndCAAckCount := S.INITIAL_CWND, 0x7fff_ffff_ffff_ffff, 0;
      outstanding, dupAckCount := 0, 0;
      fr := S.Recovery(false, 0, Add(Uint32, una, -1), 0);
      maxPayloadSize := mss;
      rttMeasureSeqNum, rttMeasureTime := una, 0;
      srtt, rttvar, srttInited, rto := 0, 0, false, 1_000_000_000;
      lastSendTime := 0;
      resendTimer := new Timer.TcpTimer();
      written, sent := [], [];
    }

    // ----- sending

    method SendSegment(data: seq<byte>, fin: bool, seq': int, now: int)
      modifies this`lastSendTime, this`rttMeasureTime, this`sent
      ensures State() == S.Emit(old(State()), Packet(seq', data, fin), now)
    {
      lastSendTime := now;
      if Eq(seq', rttMeasureSeqNum) {
        rttMeasureTime := lastSendTime;
      }
      sent := sent + [Packet(seq', data, fin)];
    }

    method SendAck(now: int)
      modifies this`lastSendTime, this`rttMeasureTime, this`sent
      ensures State() == S.SendEmpty(old(State()), now)
    {
      SendSegment([], false, sndNxt, now);
    }

    /** writeNext's segment seg, cut after `available` bytes if it is longer; what follows goes
      * behind it. */
    method Split(seg: S.Segment, available: nat) returns (front: S.Segment)
      requires writeNext < |writeList|
      modifies this`writeList
      ensures writeList == S.Cut(Uint32, old(writeList), writeNext, seg, available)
      ensures front == if |seg.data| > available then seg.(data := seg.data[..available]) else seg
    {
      hide Wire;
      front := seg;
      if |seg.data| > available {
        var nSeg := seg.(data := seg.data[available..], num := Add(Uint32, seg.num, available));
        front := seg.(data := seg.data[..available]);
        writeList := writeList[..writeNext] + [front, nSeg] + writeList[writeNext + 1..];
      } else {
        writeList := writeList[writeNext := seg];
      }
    }

    /** sendSegment and the step of sndNxt after it. */
    method Transmit(seg: S.Segment, segEnd: int, now: int)
      modifies this`lastSendTime, this`rttMeasureTime, this`sent, this`sndNxt
      ensures State() == S.Bump(S.Emit(old(State()), Packet(seg.num, seg.data, seg.mark.Fin?), now), segEnd)
    {
      hide Wire, LessThan;
      SendSegment(seg.data, seg.mark.Fin?, seg.num, now);
      if LessThan(sndNxt, segEnd) {
        sndNxt := segEnd;
      }
    }

    /** writeNext's segment is sent as seg, cut after `available` bytes; a FIN is not counted as
      * outstanding. */
    method Take(seg: S.Segment, available: nat) returns (front: S.Segment)
      requires writeNext < |writeList|
      modifies this`writeList, this`writeNext, this`outstanding
      ensures writeList == S.Cut(Uint32, old(writeList), old(writeNext), seg, available)
      ensures writeNext == old(writeNext) + 1
      ensures outstanding == old(outstanding) + if seg.mark.Fin? then 0 else 1
      ensures front == if |seg.data| > available then seg.(data := seg.data[..available]) else seg
    {
      hide S.Cut;
      front := Split(seg, available);
      if seg.mark != S.Fin {
        outstanding := outstanding + 1;
      }
      writeNext := writeNext + 1;
    }

    /** The FIN g goes out, or g's first `available` bytes. */
    method SendOut(g: S.Segment, available: nat, now: int)
      requires writeNext < |writeList|
      requires if g.mark.Fin? then |g.data| == 0 && available == 0 else available == S.Piece(Uint32, State(), g)
      modifies this
      ensures State() ==
        if g.mark.Fin? then S.SendFin(Uint32, old(State()), g, now) else S.SendBytes(Uint32, old(State()), g, now)
    {
      hide Add, S.WindowEnd, S.Emit, S.Bump, S.SendFin, S.SendBytes, S.Cut, S.Piece;
      ghost var s := State();
      var seg := Take(g, available);
      ghost var t := s.(list := S.Cut(Uint32, s.list, s.writeNext, g, available), writeNext := s.writeNext + 1,
                        outstanding := s.outstanding + if g.mark.Fin? then 0 else 1);
      assert State() == t;
      if g.mark == S.Fin {
        FinTurn(s, g, now);
        Transmit(seg, Add(Uint32, seg.num, 1), now);
      } else {
        BytesTurn(s, g, available, now);
        Transmit(seg, Add(Uint32, seg.num, |seg.data|), now);
      }
    }

    /** One turn of sendData's loop; false when it leaves the loop. */
    method SendNext(end: int, limit: int, now: int) returns (on: bool)
      requires writeNext < |writeList|
      requires end == S.WindowEnd(Uint32, State()) && limit == maxPayloadSize
      modifies this
      ensures (if on then S.Go(State()) else S.Halt(State())) == S.SendOne(Uint32, old(State()), now)
    {
      hide Wire, Add, LessThan, Size, S.WindowEnd, S.SendFin, S.SendBytes;
      var seg := writeList[writeNext];
      if seg.mark == S.Unset {
        seg := seg.(num := sndNxt, mark := S.Data);
      }
      assert seg == S.Numbered(State(), writeList[writeNext]);
      if |seg.data| == 0 {
        if writeNext != |writeList| - 1 {
          panicked := true;
          return false;
        }
        SendFinMarks(State(), seg, now);
        SendOut(seg.(mark := S.Fin), 0, now);
      } else {
        if seg.mark == S.Fin {
          panicked := true;
          return false;
        }
        if !LessThan(seg.num, end) {
          writeList := writeList[writeNext := seg];
          return false;
        }
        var available: int := Size(seg.num, end);
        if available > limit {
          available := limit;
        }
        // a limit below zero would make TrimFront panic; maxPayloadSize is at least 1
        if available < 0 {
          available := 0;
        }
        SendOut(seg, available, now);
      }
      return true;
    }

    static lemma SendFinMarks(s: S.State, g: S.Segment, now: int)
      requires s.writeNext < |s.list|
      ensures S.SendFin(Uint32, s, g.(mark := S.Fin), now) == S.SendFin(Uint32, s, g, now)
    {
      hide Add, S.Emit, S.Bump;
    }

    static lemma FinTurn(s: S.State, g: S.Segment, now: int)
      requires s.writeNext < |s.list| && |g.data| == 0 && g.mark.Fin?
      ensures S.SendFin(Uint32, s, g, now) ==
        S.Bump(S.Emit(s.(list := S.Cut(Uint32, s.list, s.writeNext, g, 0), writeNext := s.writeNext + 1),
                      Packet(g.num, g.data, true), now), Add(Uint32, g.num, 1))
    {
      hide Add, S.Emit, S.Bump;
      assert g.data == [];
      assert g.(mark := S.Fin) == g;
    }

    static lemma BytesTurn(s: S.State, g: S.Segment, n: nat, now: int)
      requires s.writeNext < |s.list| && !g.mark.Fin? && n == S.Piece(Uint32, s, g)
      ensures var f := if |g.data| > n then g.(data := g.data[..n]) else g;
        S.SendBytes(Uint32, s, g, now) ==
          S.Bump(S.Emit(s.(list := S.Cut(Uint32, s.list, s.writeNext, g, n), writeNext := s.writeNext + 1,
                           outstanding := s.outstanding + 1),
                        Packet(f.num, f.data, f.mark.Fin?), now), Add(Uint32, f.num, |f.data|))
    {
      hide Add, S.Emit, S.Bump, S.Cut, S.Piece;
    }

    method SendData(now: int)
      modifies this, resendTimer
      ensures State() == S.SendData(Uint32, old(State()), now)
    {
      hide Wire, S.SendOne;
      var limit := maxPayloadSize;
      if !fr.active && now - lastSendTime > rto {
        if sndCwnd > S.INITIAL_CWND {
          sndCwnd := S.INITIAL_CWND;
        }
      }
      ghost var start := State();
      assert start == S.RestartIdle(old(State()), now);
      var end := Add(Uint32, sndUna, sndWnd);
      while writeNext < |writeList| && outstanding < sndCwnd
        invariant S.SendLoop(Uint32, State(), now) == S.SendLoop(Uint32, start, now)
        invariant end == S.WindowEnd(Uint32, State()) && limit == maxPayloadSize
        decreases S.Max(0, sndCwnd - outstanding), |writeList| - writeNext
      {
        ghost var before := State();
        TurnKeeps(before, now);
        var on := SendNext(end, limit, now);
        if !on {
          assert State() == S.SendLoop(Uint32, start, now);
          break;
        }
      }
      assert State() == S.SendLoop(Uint32, start, now);
      if resendTimer.mode != Timer.Enabled && !Eq(sndUna, sndNxt) {
        resendTimer.Enable(now, rto);
      }
    }

    /** What a turn of the loop leaves alone, and that it makes progress. */
    static lemma TurnKeeps(s: S.State, now: int)
      requires s.writeNext < |s.list| && s.outstanding < s.cwnd
      ensures var r := S.SendOne(Uint32, s, now);
        r.Go? ==>
          && S.WindowEnd(Uint32, r.s) == S.WindowEnd(Uint32, s) && r.s.maxPayload == s.maxPayload && r.s.cwnd == s.cwnd
          && (r.s.outstanding == s.outstanding + 1
              || (r.s.outstanding == s.outstanding && |r.s.list| - r.s.writeNext < |s.list| - s.writeNext))
    {
      hide Wire, S.Piece, S.Cut;
    }

    // ----- Write, Shutdown, and moving what they queued

    /** A segment joins the send queue: data, which counts in the send buffer, or the FIN. */
    method Enqueue(data: seq<byte>, fin: bool)
      requires fin ==> data == []
      modifies this`sndQueue, this`sndBufInQueue, this`sndBufUsed, this`sndClosed, this`written
      ensures sndQueue == old(sndQueue) + [S.Segment(data, 0, S.Unset)]
      ensures sndBufInQueue == Add(Uint32, old(sndBufInQueue), if fin then 1 else |data|)
      ensures sndBufUsed == old(sndBufUsed) + |data| && sndClosed == (old(sndClosed) || fin)
      ensures written == if fin then old(written) else old(written) + data
    {
      hide Add;
      sndQueue := sndQueue + [S.Segment(data, 0, S.Unset)];
      if fin {
        sndBufInQueue := Add(Uint32, sndBufInQueue, 1);
        sndClosed := true;
      } else {
        sndBufInQueue := Add(Uint32, sndBufInQueue, |data|);
        sndBufUsed := sndBufUsed + |data|;
        written := written + data;
      }
    }

    method Write(data: seq<byte>)
      modifies this
      ensures State() == S.Write(Uint32, old(State()), data)
    {
      hide Add;
      if |data| == 0 || sndClosed {
        return;
      }
      var avail := sndBufSize - sndBufUsed;
      if avail <= 0 {
        return;
      }
      var v := data;
      if |v| > avail {
        v := v[..avail];
      }
      assert v == data[..S.Min(avail, |data|)];
      Enqueue(v, false);
    }

    method Shutdown()
      modifies this
      ensures State() == S.Shutdown(Uint32, old(State()))
    {
      hide Add;
      if sndClosed {
        return;
      }
      Enqueue([], true);
    }

    method MoveQueue()
      modifies this`writeList, this`sndQueue, this`sndNxtList, this`sndBufInQueue
      ensures var t := S.MoveQueue(Uint32, old(State()));
        writeList == t.list && sndQueue == t.queue && sndNxtList == t.nxtList && sndBufInQueue == t.inQueue
    {
      hide Add;
      if |sndQueue| != 0 {
        writeList := writeList + sndQueue;
        sndQueue := [];
        sndNxtList := Add(Uint32, sndNxtList, sndBufInQueue);
        sndBufInQueue := 0;
      }
    }

    method HandleWrite(now: int)
      modifies this, resendTimer
      ensures State() == S.HandleWrite(Uint32, old(State()), now)
    {
      hide Add, S.SendData;
      MoveQueue();
      assert State() == S.MoveQueue(Uint32, old(State()));
      SendData(now);
    }

    method HandleClose(now: int)
      modifies this, resendTimer
      ensures State() == S.HandleClose(Uint32, old(State()), now)
    {
      hide Wire, S.HandleWrite;
      HandleWrite(now);
      closed := true;
    }

    // ----- congestion control

    method UpdateSlowStart(packetsAcked: int) returns (left: int)
      modifies this`sndCwnd, this`sndCAAckCount
      ensures (State(), left) == S.SlowStart(old(State()), packetsAcked)
    {
      var newcwnd := sndCwnd + packetsAcked;
      if newcwnd >= sndSsthresh {
        newcwnd := sndSsthresh;
        sndCAAckCount := 0;
      }
      left := packetsAcked - (newcwnd - sndCwnd);
      sndCwnd := newcwnd;
    }

    /** Division by zero would panic; the invariants of SenderProofs keep sndCwnd positive. */
    method UpdateCongestionAvoidance(packetsAcked: int)
      requires sndCwnd > 0 && sndCAAckCount + packetsAcked >= 0
      modifies this`sndCwnd, this`sndCAAckCount
      ensures State() == S.Avoidance(old(State()), packetsAcked)
    {
      sndCAAckCount := sndCAAckCount + packetsAcked;
      if sndCAAckCount >= sndCwnd {
        var n := sndCAAckCount / sndCwnd;
        sndCwnd := sndCwnd + n;
        sndCAAckCount := sndCAAckCount % sndCwnd;
      }
    }

    method UpdateCwnd(packetsAcked: int)
      requires sndCwnd > 0 && sndSsthresh > 0 && sndCAAckCount >= 0 && packetsAcked >= 0
      modifies this`sndCwnd, this`sndCAAckCount
      ensures State() == S.RenoUpdate(old(State()), packetsAcked)
    {
      hide S.Grow;
      var left := packetsAcked;
      if sndCwnd < sndSsthresh {
        left := UpdateSlowStart(packetsAcked);
        if left == 0 {
          return;
        }
      }
      UpdateCongestionAvoidance(left);
    }

    method ReduceSlowStartThreshold()
      modifies this`sndSsthresh
      ensures sndSsthresh == S.Max(outstanding / 2, 2)
    {
      sndSsthresh := outstanding / 2;
      if sndSsthresh < 2 {
        sndSsthresh := 2;
      }
    }

    method EnterFastRecovery()
      modifies this`sndCwnd, this`fr
      ensures sndCwnd == sndSsthresh + 3
      ensures fr == S.Recovery(true, sndUna, Add(Uint32, sndNxt, -1), sndCwnd + outstanding)
    {
      hide Add;
      sndCwnd := sndSsthresh + 3;
      fr := S.Recovery(true, sndUna, Add(Uint32, sndNxt, -1), sndCwnd + outstanding);
    }

    method LeaveFastRecovery()
      modifies this`sndCwnd, this`fr, this`dupAckCount
      ensures sndCwnd == sndSsthresh && dupAckCount == 0 && fr == S.Recovery(false, 0, Add(Uint32, sndNxt, -1), 0)
    {
      hide Add;
      fr := S.Recovery(false, 0, Add(Uint32, sndNxt, -1), 0);
      dupAckCount := 0;
      sndCwnd := sndSsthresh;
    }

    // ----- acknowledgements

    method UpdateRTO(rtt: int)
      modifies this`srtt, this`rttvar, this`srttInited, this`rto
      ensures var t := S.UpdateRto(old(State()), rtt);
        srtt == t.srtt && rttvar == t.rttvar && srttInited == t.srttInited && rto == t.rto
    {
      hide S.Quo;
      if !srttInited {
        rttvar, srtt, srttInited := S.Quo(rtt, 2), rtt, true;
      } else {
        var diff := srtt - rtt;
        if diff < 0 {
          diff := -diff;
        }
        rttvar, srtt := S.Quo(3 * rttvar + diff, 4), S.Quo(7 * srtt + rtt, 8);
      }
      rto := srtt + 4 * rttvar;
      if rto < S.MIN_RTO {
        rto := S.MIN_RTO;
      }
    }

    method MeasureRtt(ack: int, now: int)
      modifies this`srtt, this`rttvar, this`srttInited, this`rto, this`rttMeasureSeqNum
      ensures var t := S.MeasureRtt(old(State()), ack, now);
        && srtt == t.srtt && rttvar == t.rttvar && srttInited == t.srttInited && rto == t.rto
        && rttMeasureSeqNum == t.rttNum
    {
      hide LessThan, S.Estimate;
      if LessThan(rttMeasureSeqNum, ack) {
        UpdateRTO(now - rttMeasureTime);
        rttMeasureSeqNum := sndNxt;
      }
    }

    static lemma MeasureFields(s: S.State, ack: int, now: int)
      ensures var t := S.MeasureRtt(s, ack, now);
        t == s.(srtt := t.srtt, rttvar := t.rttvar, srttInited := t.srttInited, rto := t.rto, rttNum := t.rttNum)
    {
      hide LessThan, S.Estimate;
    }

    /** checkDuplicateAck leaves the windows that congestion control divides by positive. */
    static lemma StaysPositive(s: S.State, ack: int, window: int, len: nat)
      requires s.cwnd > 0 && s.ssthresh > 0
      ensures var v := S.Judge(Uint32, s, ack, window, len); v.cwnd > 0 && v.ssthresh > 0
    {
      hide Add, LessThan, InRange, Eq;
    }

    method CheckDuplicateAck(ack: int, window: int, logicalLen: nat) returns (rtx: bool)
      modifies this`sndCwnd, this`sndSsthresh, this`dupAckCount, this`fr
      ensures S.Verdict(sndCwnd, sndSsthresh, dupAckCount, fr, rtx) ==
        S.Judge(Uint32, old(State()), ack, window, logicalLen)
    {
      hide Add, LessThan, InRange, Eq;
      if fr.active {
        if !InRange(ack, sndUna, sndNxt + 1) {
          return false;
        }
        if LessThan(fr.last, ack) {
          LeaveFastRecovery();
          return false;
        }
        if logicalLen != 0 || sndWnd != window {
          return false;
        }
        if Eq(ack, fr.first) {
          if sndCwnd < fr.maxCwnd {
            sndCwnd := sndCwnd + 1;
          }
          return false;
        }
        fr := fr.(first := ack);
        dupAckCount := 0;
        return true;
      }
      if !Eq(ack, sndUna) || logicalLen != 0 || sndWnd != window || Eq(ack, sndNxt) {
        dupAckCount := 0;
        return false;
      }
      dupAckCount := dupAckCount + 1;
      if dupAckCount < S.DUP_ACK_THRESHOLD {
        return false;
      }
      if !LessThan(fr.last, ack) {
        dupAckCount := 0;
        return false;
      }
      ReduceSlowStartThreshold();
      EnterFastRecovery();
      dupAckCount := 0;
      return true;
    }

    /** The loop over the acknowledged segments: s.writeNext follows the segments that go. */
    method RemoveAcked(acked: nat)
      modifies this`writeList, this`writeNext, this`outstanding, this`panicked
      ensures var p := S.Pop(old(writeList), acked);
        && writeList == p.list && outstanding == old(outstanding) - p.count && panicked == (old(panicked) || p.fault)
        && writeNext == if old(writeNext) < p.count then 0 else old(writeNext) - p.count
    {
      var ackLeft := acked;
      ghost var gone := 0;
      ghost var p := S.Pop(writeList, acked);
      while ackLeft > 0
        invariant 0 <= gone <= p.count && S.Pop(writeList, ackLeft) == S.Popped(p.list, p.count - gone, p.fault)
        invariant outstanding == old(outstanding) - gone && panicked == old(panicked)
        invariant writeNext == if old(writeNext) < gone then 0 else old(writeNext) - gone
        decreases |writeList|
      {
        if |writeList| == 0 {
          panicked := true;
          break;
        }
        var seg := writeList[0];
        var datalen := seg.LogicalLen();
        if datalen > ackLeft {
          writeList := [seg.(data := Drop(seg.data, ackLeft))] + writeList[1..];
          break;
        }
        if writeNext > 0 {
          writeNext := writeNext - 1;
        }
        writeList := writeList[1..];
        outstanding := outstanding - 1;
        ackLeft := ackLeft - datalen;
        gone := gone + 1;
      }
    }

    method TakeOff(ack: int)
      modifies this`dupAckCount, this`sndUna, this`writeList, this`writeNext, this`outstanding, this`sndBufUsed,
        this`panicked, resendTimer
      ensures var t := S.TakeOff(old(State()), ack, Size(old(sndUna), ack),
                              S.Pop(old(writeList), Size(old(sndUna), ack)));
        && dupAckCount == 0 && sndUna == ack && writeList == t.list && writeNext == t.writeNext
        && outstanding == t.outstanding && sndBufUsed == t.bufUsed && panicked == t.fault
        && resendTimer.Value() == old(resendTimer.Value()).Disable()
    {
      hide S.Pop, Size;
      dupAckCount := 0;
      resendTimer.Disable();
      var acked := Size(sndUna, ack);
      sndUna := ack;
      RemoveAcked(acked);
      sndBufUsed := sndBufUsed - acked;
    }

    method Acknowledge(ack: int)
      requires sndCwnd > 0 && sndSsthresh > 0 && sndCAAckCount >= 0
      modifies this, resendTimer
      ensures State() == S.Acknowledge(old(State()), ack)
    {
      hide S.Pop, Size, S.RenoUpdate;
      var originalOutstanding := outstanding;
      TakeOff(ack);
      assert State() == S.TakeOff(old(State()), ack, Size(old(sndUna), ack),
                                  S.Pop(old(writeList), Size(old(sndUna), ack)));
      if !fr.active {
        UpdateCwnd(originalOutstanding - outstanding);
      }
      if outstanding < 0 {
        outstanding := 0;
      }
    }

    method ResendSegment(now: int)
      modifies this
      ensures State() == S.Resend(old(State()), now)
    {
      hide S.Emit;
      rttMeasureSeqNum := sndNxt;
      if |writeList| > 0 {
        var seg := writeList[0];
        SendSegment(seg.data, seg.mark == S.Fin, seg.num, now);
      }
    }

    /** What an acknowledgement says before it is taken: a round-trip time, a duplicate. */
    method Inspect(ack: int, window: int, logicalLen: nat, now: int) returns (rtx: bool)
      requires sndCwnd > 0 && sndSsthresh > 0 && sndCAAckCount >= 0
      modifies this
      ensures (State(), rtx) == S.CheckDuplicate(Uint32, S.MeasureRtt(old(State()), ack, now), ack, window, logicalLen)
      ensures sndCwnd > 0 && sndSsthresh > 0 && sndCAAckCount >= 0
    {
      hide S.MeasureRtt, S.Judge;
      ghost var s := State();
      MeasureRtt(ack, now);
      MeasureFields(s, ack, now);
      ghost var m := State();
      assert m == S.MeasureRtt(s, ack, now);
      StaysPositive(m, ack, window, logicalLen);
      rtx := CheckDuplicateAck(ack, window, logicalLen);
    }

    /** handleRcvdSegment up to the retransmission. */
    method TakeAck(ack: int, window: int, logicalLen: nat, now: int) returns (rtx: bool)
      requires sndCwnd > 0 && sndSsthresh > 0 && sndCAAckCount >= 0
      modifies this, resendTimer
      ensures (State(), rtx) == S.TakeAck(Uint32, old(State()), ack, window, logicalLen, now)
    {
      hide S.MeasureRtt, S.CheckDuplicate, S.Acknowledge, InRange;
      rtx := Inspect(ack, window, logicalLen, now);
      sndWnd := window;
      if InRange(ack - 1, sndUna, sndNxt) {
        Acknowledge(ack);
      }
    }

    method HandleRcvdSegment(ack: int, window: int, logicalLen: nat, now: int)
      requires sndCwnd > 0 && sndSsthresh > 0 && sndCAAckCount >= 0
      modifies this, resendTimer
      ensures State() == S.HandleAck(Uint32, old(State()), ack, window, logicalLen, now)
    {
      hide S.TakeAck, S.Resend, S.SendData;
      var rtx := TakeAck(ack, window, logicalLen, now);
      if rtx {
        ResendSegment(now);
      }
      SendData(now);
    }

    // ----- the retransmit timer and the path's MTU

    method Backoff()
      modifies this`rto, this`sndCwnd, this`fr, this`dupAckCount, this`sndSsthresh, this`outstanding, this`writeNext
      ensures var t := S.Backoff(Uint32, old(State()));
        && rto == t.rto && sndCwnd == t.cwnd && fr == t.fr && dupAckCount == t.dupAcks && sndSsthresh == t.ssthresh
        && outstanding == t.outstanding && writeNext == t.writeNext
    {
      hide Add;
      rto := rto * 2;
      if fr.active {
        LeaveFastRecovery();
      }
      fr := fr.(last := Add(Uint32, sndNxt, -1));
      ReduceSlowStartThreshold();
      sndCwnd := 1;
      outstanding := 0;
      writeNext := 0;
    }

    /** false when the connection is given up. */
    method RetransmitTimerExpired(now: int) returns (alive: bool)
      modifies this, resendTimer
      ensures (State(), alive) == S.TimerExpired(Uint32, old(State()), now)
    {
      hide S.Backoff, S.SendData;
      resendTimer.wake := false;
      var expired := resendTimer.CheckExpiration(now);
      if !expired {
        return true;
      }
      if rto >= S.GIVE_UP_RTO {
        return false;
      }
      ghost var t := State();
      Backoff();
      BackoffFields(t);
      assert State() == S.Backoff(Uint32, t);
      SendData(now);
      return true;
    }

    static lemma BackoffFields(s: S.State)
      ensures var t := S.Backoff(Uint32, s);
        t == s.(rto := t.rto, cwnd := t.cwnd, fr := t.fr, dupAcks := t.dupAcks, ssthresh := t.ssthresh,
                outstanding := t.outstanding, writeNext := t.writeNext)
    {
      hide Add;
    }

    method Shrink(m: int, count: nat)
      modifies this`maxPayloadSize, this`outstanding, this`writeNext
      ensures maxPayloadSize == m && outstanding == S.Max(old(outstanding) - count, 0)
      ensures writeNext == S.FirstTooLong(writeList, old(writeNext), m, 0)
    {
      maxPayloadSize := m;
      outstanding := outstanding - count;
      if outstanding < 0 {
        outstanding := 0;
      }
      var i: nat := 0;
      while i < |writeList|
        invariant i <= writeNext == old(writeNext)
        invariant S.FirstTooLong(writeList, writeNext, m, 0) == S.FirstTooLong(writeList, writeNext, m, i)
      {
        if i == writeNext {
          break;
        }
        if |writeList[i].data| > m {
          writeNext := i;
          break;
        }
        i := i + 1;
      }
    }

    method UpdateMaxPayloadSize(mtu: int, optionLen: nat, count: nat, now: int)
      modifies this, resendTimer
      ensures State() == S.NewMtu(Uint32, old(State()), mtu, optionLen, count, now)
    {
      hide S.SendData, S.FirstTooLong;
      var m := mtu - S.TCP_HEADER;
      m := m - optionLen;
      if m >= maxPayloadSize {
        return;
      }
      if m <= 0 {
        m := 1;
      }
      Shrink(m, count);
      SendData(now);
    }
  }
}
