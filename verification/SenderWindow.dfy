/** How far the sender's data reaches: never past the edge sndUna + sndWnd that it had when the
  * data was first sent.
  */
module SenderWindow {
  import opened Packets
  import opened Seqnum
  import opened Sender
  import opened SenderProofs
  import opened SenderEvents
  import opened SenderRuns

  /** Where the data sent so far ends: sndNxt, but for the FIN. */
  ghost function DataEnd(base: int, s: State): int {
    s.nxt - if FinSent(base, s) then 1 else 0
  }

  /** Nothing was sent beyond what had been, or beyond the edge. */
  ghost predicate Reaches(base: int, s: State, t: State) {
    DataEnd(base, t) <= Max(DataEnd(base, s), s.una + s.wnd)
  }

  /** Every segment sent ends there, a FIN one later. */
  lemma OutEnds(base: int, s: State, m: nat, p: Packet)
    requires Core(base, s, m) && Placed(base, s, m) && p in s.out && p.LogicalLen() > 0
    ensures p.num + |p.data| <= DataEnd(base, s)
  {
    hide Labels, Exact, IsPlace;
    assert Slice(base, s, p);
  }

  lemma SendOneReaches(base: int, s: State, m: nat, now: int)
    requires Core(base, s, m) && s.writeNext < |s.list| && s.outstanding < s.cwnd
    ensures Reaches(base, s, SendOne(Unbounded, s, now).s)
  {
    hide Wire, Total, Bytes, SentOk, SendFin, SendBytes, Piece, Ledger, Recovering, Congestion, LessThan, WindowEnd;
    var i := s.writeNext;
    var g := Numbered(s, s.list[i]);
    LabelsCursor(s, m);
    NumberedSame(s, i, m);
    if |g.data| == 0 {
      FinIsLast(base, s, m);
      SendFinShape(base, s, m, now);
    } else if LessThan(g.num, WindowEnd(Unbounded, s)) {
      MarkNotFin(s, m, i);
      SendBytesShape(base, s, m, g, now);
    }
  }

  lemma {:induction false} SendLoopReaches(base: int, s: State, m: nat, now: int)
    requires Core(base, s, m)
    ensures Reaches(base, s, SendLoop(Unbounded, s, now))
    decreases Max(0, s.cwnd - s.outstanding), |s.list| - s.writeNext
  {
    hide Wire, Core, Placed, WithinLimits, SendOne, FinSent;
    if s.writeNext < |s.list| && s.outstanding < s.cwnd {
      var n := SendOneKeeps(base, s, m, now);
      SendOneReaches(base, s, m, now);
      match SendOne(Unbounded, s, now) {
        case Halt(t) =>
        case Go(t) =>
          Progress(s, now);
          SendLoopReaches(base, t, n, now);
      }
    }
  }

  lemma SendDataReaches(base: int, s: State, m: nat, now: int)
    requires Core(base, s, m)
    ensures Reaches(base, s, SendData(Unbounded, s, now))
  {
    hide Wire, Core, SendLoop, Placed;
    RestartIdleKeeps(base, s, m, now);
    SendLoopReaches(base, RestartIdle(s, now), m, now);
  }

  /** The fields that say how far the data reaches. */
  ghost predicate SameReach(s: State, t: State) {
    t.nxt == s.nxt && t.una == s.una && t.wnd == s.wnd && t.written == s.written && t.sndClosed == s.sndClosed
  }

  /** An event of the sender's own sends nothing beyond its edge, which it leaves alone. */
  lemma OwnReaches(base: int, s: State, m: nat, e: Event, now: int)
    requires Rest(base, s, m) && !e.AckComes?
    ensures var t := Step(Unbounded, s, e, now).0; t.una == s.una && t.wnd == s.wnd && Reaches(base, s, t)
  {
    hide Wire, Core, Placed, SendData, Write, Shutdown, MoveQueue, TimerExpired, NewMtu;
    match e {
      case WriteCall(data) => WriteReaches(base, s, m, data);
      case ShutdownCall => WriteReaches(base, s, m, []);
      case WriteWakes => HandleWriteReaches(base, s, m, now);
      case CloseWakes => HandleWriteReaches(base, s, m, now);
      case Fires =>
      case TimerWakes => TimerReaches(base, s, m, now);
      case MtuChanges(mtu, optionLen, count) => MtuReaches(base, s, m, mtu, optionLen, count, now);
      case EmptyGoes =>
    }
  }

  lemma WriteReaches(base: int, s: State, m: nat, data: seq<byte>)
    requires Core(base, s, m)
    ensures var t := Write(Unbounded, s, data); t.una == s.una && t.wnd == s.wnd && DataEnd(base, t) == DataEnd(base, s)
    ensures var t := Shutdown(Unbounded, s);
      t.una == s.una && t.wnd == s.wnd && DataEnd(base, t) == DataEnd(base, s)
  {
    hide Wire, Total, Bytes, SentOk;
    OffMonotone(s.list, m, |s.list|);
    assert s.list[..|s.list|] == s.list;
  }

  lemma MovedReaches(base: int, s: State, m: nat)
    requires Core(base, s, m)
    ensures SameReach(s, MoveQueue(Unbounded, s)) && Core(base, MoveQueue(Unbounded, s), m)
  {
    hide Core, Placed;
    MoveQueueKeeps(base, s, m);
  }

  lemma HandleWriteReaches(base: int, s: State, m: nat, now: int)
    requires Core(base, s, m)
    ensures var t := HandleWrite(Unbounded, s, now); t.una == s.una && t.wnd == s.wnd && Reaches(base, s, t)
  {
    hide Core, Placed, MoveQueue, SendData, WithinLimits;
    MovedReaches(base, s, m);
    var x := SendDataKeeps(base, MoveQueue(Unbounded, s), m, now);
    SendDataReaches(base, MoveQueue(Unbounded, s), m, now);
  }

  lemma TimerReaches(base: int, s: State, m: nat, now: int)
    requires Core(base, s, m)
    ensures var t := TimerExpired(Unbounded, s, now).0; t.una == s.una && t.wnd == s.wnd && Reaches(base, s, t)
  {
    hide Core, Placed, SendData, WithinLimits, Wire;
    var t := s.(timer := s.timer.(wake := false).CheckExpiration(now).0);
    TimerOnly(base, s, t, m);
    BackoffKeeps(base, t, m);
    var x := SendDataKeeps(base, Backoff(Unbounded, t), m, now);
    SendDataReaches(base, Backoff(Unbounded, t), m, now);
  }

  lemma MtuReaches(base: int, s: State, m: nat, mtu: int, optionLen: nat, count: nat, now: int)
    requires Core(base, s, m)
    ensures var t := NewMtu(Unbounded, s, mtu, optionLen, count, now);
      t.una == s.una && t.wnd == s.wnd && Reaches(base, s, t)
  {
    hide Wire, Ledger, Labels, Placed, SendData, WithinLimits;
    var size := mtu - TCP_HEADER - optionLen;
    if size < s.maxPayload {
      var t := s.(maxPayload := if size <= 0 then 1 else size, outstanding := Max(s.outstanding - count, 0),
                  writeNext := FirstTooLong(s.list, s.writeNext, if size <= 0 then 1 else size, 0));
      LabelsCursor(s, m);
      LedgerSame(base, s, t, m);
      var x := SendDataKeeps(base, t, m, now);
      SendDataReaches(base, t, m, now);
    }
  }

  /** After an acknowledgement the edge is as far from the later of its number and sndUna as its
    * window says, and no data goes beyond that. */
  lemma AckReaches(base: int, s: State, m: nat, ack: int, wnd: int, len: nat, now: int)
    requires Core(base, s, m) && -HALF <= ack - s.una < HALF && ack <= s.nxt && 0 <= wnd <= MAX_WND
    ensures var t := HandleAck(Unbounded, s, ack, wnd, len, now);
      && t.una + t.wnd == Max(s.una, ack) + wnd
      && DataEnd(base, t) <= Max(DataEnd(base, s), Max(s.una, ack) + wnd)
  {
    hide Wire, Core, Placed, IsPlace, TakeAck, SendData, WithinLimits, Resend, FinSent;
    var a := TakeAckKeeps(base, s, m, ack, wnd, len, now);
    TakesWindow(s, ack, wnd, len, now);
    var (t, rtx) := TakeAck(Unbounded, s, ack, wnd, len, now);
    TookSame(base, s, t);
    if rtx {
      ResendKeeps(base, t, a, now);
      TookSame(base, t, Resend(t, now));
      var x := SendDataKeeps(base, Resend(t, now), a, now);
      SendDataReaches(base, Resend(t, now), a, now);
    } else {
      var x := SendDataKeeps(base, t, a, now);
      SendDataReaches(base, t, a, now);
    }
  }

  lemma TookSame(base: int, s: State, t: State)
    requires t.nxt == s.nxt && t.written == s.written && t.sndClosed == s.sndClosed
    ensures DataEnd(base, t) == DataEnd(base, s)
  {
  }

  lemma TakesWindow(s: State, ack: int, wnd: int, len: nat, now: int)
    ensures TakeAck(Unbounded, s, ack, wnd, len, now).0.wnd == wnd
  {
    hide Wire, MeasureRtt, CheckDuplicate, Acknowledge;
    var d := CheckDuplicate(Unbounded, MeasureRtt(s, ack, now), ack, wnd, len).0;
    KeepsWindow(d.(wnd := wnd), ack);
  }

  lemma KeepsWindow(s: State, ack: int)
    ensures Acknowledge(s, ack).wnd == s.wnd
  {
    hide Size, Pop, Grow;
  }
}
