/** The times the sender keeps: when it last sent, when the measured segment went out, when the
  * retransmit timer is due, and what a long pause or an expiry does.
  */
module SenderClocks {
  import opened Packets
  import opened Seqnum
  import opened Sender
  import opened SenderProofs
  import opened SenderEvents
  import opened SenderRuns
  import opened SenderTimer
  import opened SenderExact
  import opened SenderReno
  import opened SenderProgress
  import opened SenderCycle

  /** The segment whose round trip is measured is among those sent between s and t. */
  ghost predicate SentMeasured(s: State, t: State) {
    exists k :: s.writeNext <= k < t.writeNext && k < |t.list| && Eq(t.list[k].num, s.rttNum)
  }

  ghost predicate Clocks(s: State, t: State, now: int) {
    && t.rttNum == s.rttNum
    && t.lastSend == (if t.writeNext > s.writeNext then now else s.lastSend)
    && t.rttTime == (if SentMeasured(s, t) then now else s.rttTime)
  }

  lemma SendFinClocks(s: State, g: Segment, now: int)
    requires s.writeNext < |s.list|
    ensures var t := SendFin(Unbounded, s, g, now);
      t.rttNum == s.rttNum && t.lastSend == now && t.rttTime == if Eq(g.num, s.rttNum) then now else s.rttTime
  {
    hide Wire, Eq, LessThan;
  }

  lemma SendBytesClocks(s: State, g: Segment, now: int)
    requires s.writeNext < |s.list|
    ensures var t := SendBytes(Unbounded, s, g, now);
      && t.rttNum == s.rttNum && t.lastSend == now && t.rttTime == (if Eq(g.num, s.rttNum) then now else s.rttTime)
      && |t.out| == |s.out| + 1 && t.out[|s.out|].num == g.num
  {
    hide Wire, Eq, LessThan, Piece, Cut;
  }

  lemma SendOneClocks(base: int, s: State, m: nat, now: int)
    requires Core(base, s, m) && s.writeNext < |s.list|
    ensures var r := SendOne(Unbounded, s, now); var t := r.s;
      && t.rttNum == s.rttNum
      && (r.Halt? ==> t.rttTime == s.rttTime && t.lastSend == s.lastSend && t.writeNext == s.writeNext)
      && (r.Go? ==> t.lastSend == now && t.writeNext == s.writeNext + 1 <= |t.list|)
      && (r.Go? ==> t.rttTime == if Eq(t.list[s.writeNext].num, s.rttNum) then now else s.rttTime)
  {
    hide Core, Wire, Eq, LessThan, WindowEnd, SendFin, SendBytes;
    var g := Numbered(s, s.list[s.writeNext]);
    SendFinClocks(s, g, now);
    SendBytesClocks(s, g, now);
    SendFinList(s, g, now);
    if SendOne(Unbounded, s, now).Go? {
      SendOneExact(base, s, m, now);
    }
  }

  lemma SendFinList(s: State, g: Segment, now: int)
    requires s.writeNext < |s.list|
    ensures var t := SendFin(Unbounded, s, g, now); |t.list| == |s.list| && t.list[s.writeNext].num == g.num
  {
    hide Wire, Eq, LessThan;
  }

  lemma {:induction false} SendLoopClocks(base: int, s: State, m: nat, now: int)
    requires Core(base, s, m)
    ensures Clocks(s, SendLoop(Unbounded, s, now), now)
    decreases Max(0, s.cwnd - s.outstanding), |s.list| - s.writeNext
  {
    hide Wire, Core, Placed, WithinLimits, SendOne, SentExactly, Clocks;
    CursorIn(base, s, m);
    if s.writeNext >= |s.list| || s.outstanding >= s.cwnd {
      SameClocks(s, s, now);
    } else {
      var n := SendOneKeeps(base, s, m, now);
      SendOneClocks(base, s, m, now);
      match SendOne(Unbounded, s, now) {
        case Halt(t) => SameClocks(s, t, now);
        case Go(t) =>
          Progress(s, now);
          SendLoopClocks(base, t, n, now);
          SendLoopExact(base, t, n, now);
          ClocksThen(s, t, SendLoop(Unbounded, t, now), now);
      }
    }
  }

  lemma SameClocks(s: State, t: State, now: int)
    requires t.rttNum == s.rttNum && t.rttTime == s.rttTime && t.lastSend == s.lastSend && t.writeNext == s.writeNext
    ensures Clocks(s, t, now)
  {
  }

  lemma ClocksThen(s: State, u: State, t: State, now: int)
    requires Clocks(u, t, now) && SentExactly(u, t) && u.writeNext == s.writeNext + 1 <= |u.list|
    requires u.lastSend == now && u.rttNum == s.rttNum
    requires u.rttTime == if Eq(u.list[s.writeNext].num, s.rttNum) then now else s.rttTime
    ensures Clocks(s, t, now)
  {
    hide Eq, Off;
    var i := s.writeNext;
    assert t.list[i] == t.list[..i + 1][i] == u.list[..i + 1][i];
    if SentMeasured(u, t) {
      var k :| u.writeNext <= k < t.writeNext && k < |t.list| && Eq(t.list[k].num, u.rttNum);
      assert s.writeNext <= k < t.writeNext;
    }
    if SentMeasured(s, t) && !SentMeasured(u, t) {
      var k :| s.writeNext <= k < t.writeNext && k < |t.list| && Eq(t.list[k].num, s.rttNum);
      assert k == i;
    }
    if Eq(u.list[i].num, s.rttNum) {
      assert s.writeNext <= i < t.writeNext;
    }
  }

  /** What sendData does to the clocks and the timer: the time of the last sending; the time of the
    * measured segment, if it went out; the window cut to ten after a pause of more than a timeout;
    * and the timer, if it was not running and something is in flight, due a timeout from now. */
  lemma SendDataClocks(base: int, s: State, m: nat, now: int)
    requires Core(base, s, m)
    ensures var t := SendData(Unbounded, s, now);
      && Clocks(s, t, now) && t.rto == s.rto
      && t.cwnd == (if !s.fr.active && now - s.lastSend > s.rto then Min(s.cwnd, 10) else s.cwnd)
      && (if !s.timer.mode.Enabled? && t.una != t.nxt then t.timer.mode.Enabled? && t.timer.target == now + s.rto
          else t.timer == s.timer)
  {
    hide Wire, Core, SendLoop, Placed, WithinLimits, Exhausted, Eq;
    RestartIdleKeeps(base, s, m, now);
    var r := RestartIdle(s, now);
    SendLoopClocks(base, r, m, now);
    SendLoopTouches(Unbounded, r, now);
    var x := SendLoopKeeps(base, r, m, now);
    var t := SendLoop(Unbounded, r, now);
    CoreReach(base, t, x);
    LessThanExact(t.una, t.nxt);
    SameSentMeasured(s, r, t, SendData(Unbounded, s, now));
  }

  lemma SameSentMeasured(s: State, r: State, t: State, u: State)
    requires r.writeNext == s.writeNext && r.rttNum == s.rttNum && u.writeNext == t.writeNext && u.list == t.list
    ensures SentMeasured(r, t) == SentMeasured(s, u)
  {
    hide Eq;
  }

  /** Section 5 of RFC 6298, rule 5.3: an acknowledgement of something new restarts the timer for a
    * timeout from now, unless everything is acknowledged. */
  lemma AckRestarts(base: int, s: State, m: nat, ack: int, wnd: int, len: nat, now: int)
    requires Core(base, s, m) && -HALF <= ack - s.una < HALF && 0 <= wnd <= MAX_WND && s.una < ack <= s.nxt
    ensures var t := HandleAck(Unbounded, s, ack, wnd, len, now);
      if t.una == t.nxt then !t.timer.mode.Enabled? else t.timer.mode.Enabled? && t.timer.target == now + t.rto
  {
    hide Wire, Core, Placed, TakeAck, SendData, Resend, WithinLimits, Exhausted;
    var a := TakeAckKeeps(base, s, m, ack, wnd, len, now);
    var (u, rtx) := TakeAck(Unbounded, s, ack, wnd, len, now);
    if rtx {
      ResendKeeps(base, u, a, now);
      SendDataClocks(base, Resend(u, now), a, now);
      var x := SendDataKeeps(base, Resend(u, now), a, now);
    } else {
      SendDataClocks(base, u, a, now);
      var x := SendDataKeeps(base, u, a, now);
    }
  }

  /** What an expiry makes of the sender, before it sends: one segment may be in flight, the
    * threshold is half of what was, the timeout is twice as long, and recovery is over. */
  lemma ExpiryExact(base: int, s: State, m: nat, now: int)
    requires Core(base, s, m) && s.rto < GIVE_UP_RTO && s.timer.(wake := false).CheckExpiration(now).1
    ensures var (t, alive) := TimerExpired(Unbounded, s, now);
      && alive && t.rto == 2 * s.rto && t.ssthresh == Max(s.outstanding / 2, 2) && t.cwnd == 1
      && !t.fr.active && t.fr.last == s.nxt - 1 && t.outstanding <= 1
      && t.dupAcks == (if s.fr.active then 0 else s.dupAcks) && t.rttNum == s.rttNum
      && t.writeNext <= |t.list| && t.out == s.out + Wired(t.list[..t.writeNext])
      && (t.una != t.nxt ==> t.timer.mode.Enabled? && t.timer.target == now + 2 * s.rto)
  {
    hide Wire, Core, Placed, SendData, WithinLimits, Exhausted, Backoff, Timer.State.CheckExpiration, Wired;
    var e := s.(timer := s.timer.(wake := false).CheckExpiration(now).0);
    ExpiredIsDisabled(s, now);
    TimerOnly(base, s, e, m);
    BackoffKeeps(base, e, m);
    BackoffIs(e);
    var b := Backoff(Unbounded, e);
    var x := SendDataKeeps(base, b, m, now);
    SendDataClocks(base, b, m, now);
    SendDataExact(base, b, m, now);
    WithinOutstanding(RestartIdle(b, now), SendData(Unbounded, b, now));
    var t := SendData(Unbounded, b, now);
    assert t.list[0..t.writeNext] == t.list[..t.writeNext];
  }

  /** A fast retransmission starts a new measurement, on the next new number: what was sent before is
    * not measured any more, as Karn's algorithm asks. */
  lemma ResendForgets(base: int, s: State, m: nat, ack: int, wnd: int, len: nat, now: int)
    requires Core(base, s, m) && -HALF <= ack - s.una < HALF && 0 <= wnd <= MAX_WND
    requires CheckDuplicate(Unbounded, s, ack, wnd, len).1
    ensures HandleAck(Unbounded, s, ack, wnd, len, now).rttNum == s.nxt
  {
    hide Wire, Core, Placed, TakeAck, SendData, Resend, WithinLimits, Exhausted, CheckDuplicate, HandleAck, Clocks;
    var a := TakeAckKeeps(base, s, m, ack, wnd, len, now);
    TakeAckReno(base, s, m, ack, wnd, len, now);
    HandleAckIs(s, ack, wnd, len, now);
    var u := TakeAck(Unbounded, s, ack, wnd, len, now).0;
    ResendKeeps(base, u, a, now);
    ResendMeasures(u, now);
    SendDataClocks(base, Resend(u, now), a, now);
    ClocksNum(Resend(u, now), SendData(Unbounded, Resend(u, now), now), now);
  }

  lemma ResendMeasures(s: State, now: int)
    ensures Resend(s, now).rttNum == s.nxt
  {
    hide Eq;
  }

  lemma ClocksNum(s: State, t: State, now: int)
    requires Clocks(s, t, now)
    ensures t.rttNum == s.rttNum
  {
  }

  /** A timeout does not: if the segment sent again is the one being measured, the measurement starts
    * with the retransmission, and an acknowledgement of the first transmission is taken for one of
    * the second. */
  lemma ExpiryMeasuresAgain(s: State, d: seq<byte>)
    requires Flying(s, d) && Ticking(s.timer) && Fits(s, d) && s.rto < GIVE_UP_RTO
    ensures var at := s.timer.target; var f := Step(Unbounded, s, Fires, at).0;
      var t := Step(Unbounded, f, TimerWakes, at).0; var u := HandleAck(Unbounded, t, t.nxt, t.wnd, 0, at);
      && t.rttNum == s.rttNum == s.una && t.rttTime == at
      && u.rto == UpdateRto(t, 0).rto
  {
    hide HandleAck, UpdateRto;
    FlyingTimesOut(s, d);
    var at := s.timer.target;
    var t := Step(Unbounded, Step(Unbounded, s, Fires, at).0, TimerWakes, at).0;
    FlyingAcked(t, d, t.wnd, 0, at);
  }

  lemma ExpiredIsDisabled(s: State, now: int)
    requires s.timer.(wake := false).CheckExpiration(now).1
    ensures !s.timer.(wake := false).CheckExpiration(now).0.mode.Enabled?
  {
  }

  lemma BackoffIs(s: State)
    ensures var b := Backoff(Unbounded, s);
      && b.cwnd == 1 && b.outstanding == 0 && b.ssthresh == Max(s.outstanding / 2, 2) && b.rttNum == s.rttNum
      && b.dupAcks == (if s.fr.active then 0 else s.dupAcks)
      && b.lastSend == s.lastSend && b.list == s.list && b.una == s.una && b.wnd == s.wnd
      && b.maxPayload == s.maxPayload
  {
  }

  // ----- the path's payload size

  /** What was sent since the last rewind fits the path. */
  ghost predicate Fitting(s: State) {
    forall k :: 0 <= k < s.writeNext && k < |s.list| ==> |s.list[k].data| <= s.maxPayload
  }

  lemma SendDataFitting(base: int, s: State, m: nat, now: int)
    requires Core(base, s, m) && Fitting(s)
    ensures Fitting(SendData(Unbounded, s, now))
  {
    hide Wire, Core, SendData, Placed, Exhausted, SentExactly, WithinLimits;
    var x := SendDataKeeps(base, s, m, now);
    SendDataExact(base, s, m, now);
    PayloadPositive(base, s, m);
    var t := SendData(Unbounded, s, now);
    forall k | 0 <= k < t.writeNext && k < |t.list|
      ensures |t.list[k].data| <= t.maxPayload
    {
      FitsAt(base, s, RestartIdle(s, now), t, x, k);
    }
  }

  lemma FitsAt(base: int, s: State, r: State, t: State, m: nat, k: nat)
    requires SentExactly(s, t) && Fitting(s) && WithinLimits(r, t) && Core(base, t, m) && k < t.writeNext
    requires r.out == s.out && r.maxPayload == s.maxPayload && t.maxPayload == s.maxPayload >= 1
    ensures |t.list[k].data| <= t.maxPayload
  {
    hide Off, Core, Wired;
    if k < s.writeNext {
      assert t.list[k] == t.list[..s.writeNext][k] == s.list[..s.writeNext][k];
    } else if t.list[k].mark.Fin? {
      FinsAreEmpty(base, t, m, k);
    } else {
      var fresh' := t.list[s.writeNext..t.writeNext];
      assert t.out[|s.out|..] == Wired(fresh');
      WiredAt(fresh', k - s.writeNext);
      assert Wired(fresh')[k - s.writeNext] in t.out[|r.out|..];
    }
  }

  lemma {:induction false} WiredAt(list: seq<Segment>, k: nat)
    requires k < |list|
    ensures Wired(list)[k] == Packet(list[k].num, list[k].data, list[k].mark.Fin?)
    decreases |list|
  {
    if k < |list| - 1 {
      WiredAt(list[..|list| - 1], k);
    }
  }

  lemma FinsAreEmpty(base: int, s: State, m: nat, k: nat)
    requires Core(base, s, m) && k < s.writeNext && k < |s.list| && s.list[k].mark.Fin?
    ensures |s.list[k].data| == 0
  {
    hide Ledger, Total, Off;
    assert SentOk(s.una + Off(s.list, k), s.list[k]);
  }

  lemma PayloadPositive(base: int, s: State, m: nat)
    requires Core(base, s, m)
    ensures s.maxPayload >= 1 && s.writeNext <= |s.list|
  {
    hide Ledger, Total;
  }

  lemma PopShorter(list: seq<Segment>, left: nat, p: Popped, k: nat)
    requires PopSpec(list, left, p) && k < |p.list|
    ensures p.count + k < |list| && |p.list[k].data| <= |list[p.count + k].data|
  {
    hide Off;
    if left > Off(list, p.count) && k > 0 {
      assert p.list[k] == list[p.count + 1..][k - 1];
    }
  }

  /** Taking whole segments off the front, and the first bytes of one, makes nothing longer. */
  lemma AckFitting(base: int, s: State, m: nat, ack: int)
    requires Ledger(base, s) && Labels(s, m) && Reach(base, s) && s.una < ack <= s.nxt && Fitting(s)
    ensures Fitting(Acknowledge(s, ack))
  {
    hide Wire, Ledger, Off, Pop, Grow, Labels, SentOk, PopSpec, RenoUpdate;
    SizeExact(s.una, ack);
    AllSentOf(s, m);
    PopExact(s.list, ack - s.una, m);
    var p := Pop(s.list, ack - s.una);
    RenoElse(Popping(s, ack), s.outstanding - Popping(s, ack).outstanding);
    AcknowledgeIsPopping(s, ack);
    forall k | 0 <= k < |p.list|
      ensures p.count + k < |s.list| && |p.list[k].data| <= |s.list[p.count + k].data|
    {
      PopShorter(s.list, ack - s.una, p, k);
    }
  }

  lemma HandleAckFitting(base: int, s: State, m: nat, ack: int, wnd: int, len: nat, now: int)
    requires Core(base, s, m) && -HALF <= ack - s.una < HALF && 0 <= wnd <= MAX_WND && Fitting(s)
    ensures Fitting(HandleAck(Unbounded, s, ack, wnd, len, now))
  {
    hide Wire, Core, Placed, TakeAck, SendData, Resend, WithinLimits, Exhausted, Fitting, HandleAck;
    var a := TakeAckKeeps(base, s, m, ack, wnd, len, now);
    TakeAckFitting(base, s, m, ack, wnd, len, now);
    HandleAckIs(s, ack, wnd, len, now);
    var (u, rtx) := TakeAck(Unbounded, s, ack, wnd, len, now);
    if rtx {
      ResendKeeps(base, u, a, now);
      SameFitting(u, Resend(u, now));
      SendDataFitting(base, Resend(u, now), a, now);
    } else {
      SendDataFitting(base, u, a, now);
    }
  }

  lemma SameFitting(s: State, t: State)
    requires Fitting(s) && t.list == s.list && t.writeNext <= s.writeNext && t.maxPayload == s.maxPayload
    ensures Fitting(t)
  {
  }

  lemma TakeAckFitting(base: int, s: State, m: nat, ack: int, wnd: int, len: nat, now: int)
    requires Core(base, s, m) && -HALF <= ack - s.una < HALF && 0 <= wnd <= MAX_WND && Fitting(s)
    ensures Fitting(TakeAck(Unbounded, s, ack, wnd, len, now).0)
  {
    hide Wire, Ledger, Labels, Total, Judge, MeasureRtt, Acknowledge, Fitting;
    MeasureKeeps(s, ack, now);
    var a := MeasureRtt(s, ack, now);
    LedgerSame(base, s, a, m);
    CheckDuplicateKeeps(base, a, m, ack, wnd, len);
    var d := CheckDuplicate(Unbounded, a, ack, wnd, len).0;
    var v := d.(wnd := wnd);
    LedgerSame(base, s, v, m);
    InRangeExact(ack - 1, v.una, v.nxt);
    SameFitting(s, v);
    if s.una < ack <= s.nxt {
      AckFitting(base, v, m, ack);
    }
  }

  /** From segment j on, the first that was sent and is too long for t, all is sent again. */
  ghost predicate Rewound(s: State, t: State, j: nat, count: nat) {
    && j <= s.writeNext && j <= |s.list| && j <= t.writeNext <= |t.list|
    && (forall k :: 0 <= k < j ==> |s.list[k].data| <= t.maxPayload)
    && (j < s.writeNext ==> j < |s.list| && |s.list[j].data| > t.maxPayload)
    && t.list[..j] == s.list[..j] && t.out == s.out + Wired(t.list[j..t.writeNext])
    && t.outstanding == Max(s.outstanding - count, 0) + CountData(Wired(t.list[j..t.writeNext]))
  }

  /** A smaller path: the payload size is what is left of the MTU, at least one byte; and what was
    * sent from the first segment on that is too long is sent again, cut to size. */
  lemma NewMtuExact(base: int, s: State, m: nat, mtu: int, optionLen: nat, count: nat, now: int)
    requires Core(base, s, m)
    ensures var t := NewMtu(Unbounded, s, mtu, optionLen, count, now);
      if mtu - 20 - optionLen >= s.maxPayload then t == s
      else t.maxPayload == Max(mtu - 20 - optionLen, 1) && Fitting(t) && exists j :: Rewound(s, t, j, count)
  {
    hide Wire, Ledger, Labels, SendData, WithinLimits, Exhausted, Total, Rewound, SentExactly, Fitting, FirstTooLong;
    if mtu - 20 - optionLen < s.maxPayload {
      var size := Max(mtu - 20 - optionLen, 1);
      var j := FirstTooLong(s.list, s.writeNext, size, 0);
      var b := s.(maxPayload := size, outstanding := Max(s.outstanding - count, 0), writeNext := j);
      LabelsCursor(s, m);
      LedgerSame(base, s, b, m);
      SendDataExact(base, b, m, now);
      RewindFits(s, size);
      SendDataFitting(base, b, m, now);
      var x := SendDataKeeps(base, b, m, now);
      var t := SendData(Unbounded, b, now);
      CountsNew(b, t, now);
      RewoundBy(s, b, t, j, count);
    }
  }

  lemma RewindFits(s: State, size: int)
    ensures Fitting(s.(maxPayload := size, writeNext := FirstTooLong(s.list, s.writeNext, size, 0)))
    ensures forall o :: Fitting(s.(maxPayload := size, outstanding := o,
      writeNext := FirstTooLong(s.list, s.writeNext, size, 0)))
  {
  }

  lemma RewoundBy(s: State, b: State, t: State, j: nat, count: nat)
    requires b == s.(maxPayload := b.maxPayload, outstanding := Max(s.outstanding - count, 0), writeNext := j)
    requires s.writeNext <= |s.list| && j == FirstTooLong(s.list, s.writeNext, b.maxPayload, 0)
    requires SentExactly(b, t) && t.maxPayload == b.maxPayload
    requires t.outstanding == b.outstanding + CountData(Wired(t.list[j..t.writeNext]))
    ensures Rewound(s, t, j, count)
  {
    hide Off, Wired, CountData;
  }

  lemma CountsNew(s: State, t: State, now: int)
    requires SentExactly(s, t) && WithinLimits(RestartIdle(s, now), t)
    ensures t.outstanding == s.outstanding + CountData(Wired(t.list[s.writeNext..t.writeNext]))
  {
    hide Off, Wired, CountData;
    assert t.out[|s.out|..] == Wired(t.list[s.writeNext..t.writeNext]);
  }

  /** Over whole runs against any peer, nothing that was sent since the last rewind is longer than
    * the path allows. */
  lemma StepFitting(base: int, s: State, m: nat, e: Event, now: int)
    requires Rest(base, s, m) && Possible(s, e) && Fitting(s)
    ensures Fitting(Step(Unbounded, s, e, now).0)
  {
    hide Wire, Core, Write, Shutdown, HandleWrite, TimerExpired, NewMtu, HandleAck, Fitting;
    match e {
      case WriteCall(data) => WriteLists(s, data);
      case ShutdownCall => WriteLists(s, []);
      case WriteWakes => HandleWriteFitting(base, s, m, now);
      case CloseWakes =>
        HandleWriteFitting(base, s, m, now);
        SameFitting(HandleWrite(Unbounded, s, now), HandleClose(Unbounded, s, now));
      case Fires => SameFitting(s, Step(Unbounded, s, e, now).0);
      case TimerWakes => TimerFitting(base, s, m, now);
      case MtuChanges(mtu, optionLen, count) => MtuFitting(base, s, m, mtu, optionLen, count, now);
      case EmptyGoes => SameFitting(s, SendEmpty(s, now));
      case AckComes(number, wnd, len) => HandleAckFitting(base, s, m, number, wnd, len, now);
    }
  }

  lemma WriteLists(s: State, data: seq<byte>)
    requires Fitting(s)
    ensures Fitting(Write(Unbounded, s, data)) && Fitting(Shutdown(Unbounded, s))
  {
  }

  lemma HandleWriteFitting(base: int, s: State, m: nat, now: int)
    requires Core(base, s, m) && Fitting(s)
    ensures Fitting(HandleWrite(Unbounded, s, now))
  {
    hide Core, Placed, MoveQueue, SendData, Wire;
    MoveQueueKeeps(base, s, m);
    PayloadPositive(base, s, m);
    SendDataFitting(base, MoveQueue(Unbounded, s), m, now);
  }

  lemma TimerFitting(base: int, s: State, m: nat, now: int)
    requires Core(base, s, m) && Fitting(s)
    ensures Fitting(TimerExpired(Unbounded, s, now).0)
  {
    hide Wire, Core, Placed, SendData, Backoff;
    var e := s.(timer := s.timer.(wake := false).CheckExpiration(now).0);
    TimerOnly(base, s, e, m);
    BackoffKeeps(base, e, m);
    BackoffIs(e);
    SendDataFitting(base, Backoff(Unbounded, e), m, now);
  }

  lemma MtuFitting(base: int, s: State, m: nat, mtu: int, optionLen: nat, count: nat, now: int)
    requires Core(base, s, m) && Fitting(s)
    ensures Fitting(NewMtu(Unbounded, s, mtu, optionLen, count, now))
  {
    hide Core, SendData, Wire, Fitting;
    if mtu - 20 - optionLen < s.maxPayload {
      NewMtuExact(base, s, m, mtu, optionLen, count, now);
    }
  }

  lemma {:induction false} RunFitting(base: int, s: State, m: nat, es: seq<(Event, int)>)
    requires Rest(base, s, m) && PossibleRun(s, es) && Fitting(s)
    ensures Fitting(Run(Unbounded, s, es).0)
    decreases |es|
  {
    hide Wire, Core, Step, Possible, Rest, Fitting;
    if |es| > 0 {
      var n := StepKeeps(base, s, m, es[0].0, es[0].1);
      StepFitting(base, s, m, es[0].0, es[0].1);
      if Step(Unbounded, s, es[0].0, es[0].1).1 {
        RunFitting(base, Step(Unbounded, s, es[0].0, es[0].1).0, n, es[1..]);
      }
    }
  }
}
