/** One segment at a time: what the sender does from rest with a single write, its
  * acknowledgement, duplicates of the last one and expiries of its timer. The runs that show
  * which states can be reached are made of these.
  */
module SenderCycle {
  import opened Packets
  import opened Seqnum
  import opened Sender
  import opened SenderProofs
  import opened SenderEvents
  import opened SenderRuns
  import opened SenderTimer
  import Timer

  /** Everything written is acknowledged. */
  ghost predicate Idle(s: State) {
    && s.list == [] && s.queue == [] && s.writeNext == 0 && s.inQueue == 0 && s.bufUsed == 0
    && s.una == s.nxt == s.nxtList == s.rttNum
    && Calm(s) && s.outstanding == 0 && s.dupAcks == 0
  }

  /** One segment is in flight. */
  ghost predicate Flying(s: State, d: seq<byte>) {
    && s.list == [Segment(d, s.una, Data)] && s.queue == [] && s.writeNext == 1 && s.inQueue == 0 && s.bufUsed == |d|
    && s.una == s.rttNum && s.nxt == s.nxtList == s.una + |d| && 1 <= |d| < HALF
    && Calm(s) && s.outstanding == 1
  }

  ghost predicate Calm(s: State) {
    !s.fr.active && s.cwnd >= 1 && s.caAck >= 0 && !s.sndClosed && !s.fault
  }

  /** What no write or acknowledgement changes. */
  ghost predicate SameSetup(s: State, t: State) {
    t.fr == s.fr && t.bufSize == s.bufSize && t.maxPayload == s.maxPayload && t.closed == s.closed
  }

  /** What is to be sent fits the window, the buffer and a segment. */
  ghost predicate Fits(s: State, d: seq<byte>) {
    1 <= |d| <= s.wnd < HALF && |d| <= s.maxPayload && |d| <= s.bufSize
  }

  function Sends(s: State, d: seq<byte>, now: int): State {
    HandleWrite(Unbounded, Write(Unbounded, s, d), now)
  }

  lemma Writes(s: State, d: seq<byte>)
    requires Idle(s) && 1 <= |d| <= s.bufSize
    ensures MoveQueue(Unbounded, Write(Unbounded, s, d)) ==
      s.(list := [Segment(d, 0, Unset)], nxtList := s.una + |d|, bufUsed := |d|, written := s.written + d)
  {
    assert d[..|d|] == d && [] + [Segment(d, 0, Unset)] == [Segment(d, 0, Unset)];
  }

  /** The only segment goes out whole, for the first time or again. */
  lemma SendsAll(s: State, d: seq<byte>, now: int)
    requires |s.list| == 1 && Numbered(s, s.list[0]) == Segment(d, s.una, Data) && s.writeNext == 0 && Fits(s, d)
    requires (s.nxt == s.una || s.nxt == s.una + |d|) && s.outstanding == 0 && s.cwnd >= 1
    ensures var t := SendLoop(Unbounded, s, now);
      t == s.(list := [Segment(d, s.una, Data)], writeNext := 1, nxt := s.una + |d|, outstanding := 1,
              out := s.out + [Packet(s.una, d, false)], lastSend := now,
              rttTime := if s.rttNum == s.una then now else t.rttTime)
  {
    hide Wire, Cut, Numbered;
    var g := Numbered(s, s.list[0]);
    LessThanExact(s.una, s.una + s.wnd);
    SizeExact(s.una, s.una + s.wnd);
    LessThanExact(s.nxt, s.una + |d|);
    LessThanExact(s.una, s.una);
    var t := SendBytes(Unbounded, s, g, now);
    CutWhole(s.list, g, Piece(Unbounded, s, g));
    assert SendOne(Unbounded, s, now) == Go(t);
    assert SendLoop(Unbounded, t, now) == t;
  }

  lemma CutWhole(list: seq<Segment>, g: Segment, n: nat)
    requires |list| == 1 && |g.data| <= n
    ensures Cut(Unbounded, list, 0, g, n) == [g]
  {
  }

  /** From rest, a write that fits goes out at once, whole. */
  lemma IdleSends(s: State, d: seq<byte>, now: int)
    requires Idle(s) && Fits(s, d)
    ensures var t := Sends(s, d, now);
      && Flying(t, d) && SameSetup(s, t) && t.una == s.una && t.wnd == s.wnd && t.dupAcks == 0
      && t.out == s.out + [Packet(s.una, d, false)] && t.written == s.written + d
      && t.rto == s.rto && t.rttTime == now && t.srttInited == s.srttInited
      && t.timer == if s.timer.mode.Enabled? then s.timer else s.timer.Enable(now, s.rto)
  {
    hide Wire, Write, MoveQueue, SendLoop;
    Writes(s, d);
    var r := RestartIdle(MoveQueue(Unbounded, Write(Unbounded, s, d)), now);
    SendsAll(r, d, now);
    LessThanExact(s.una, s.una + |d|);
  }

  /** With nothing left to send sendData sends nothing. */
  lemma SendsNothing(s: State, now: int)
    requires s.writeNext >= |s.list|
    ensures var t := SendData(Unbounded, s, now); t == s.(cwnd := t.cwnd, timer := t.timer)
    ensures var t := SendData(Unbounded, s, now); s.cwnd >= 1 ==> t.cwnd >= 1
    ensures s.timer.mode.Enabled? || Eq(s.una, s.nxt) ==> SendData(Unbounded, s, now).timer == s.timer
  {
    hide Eq;
  }

  /** An acknowledgement of the segment in flight: back to rest. */
  lemma FlyingAcked(s: State, d: seq<byte>, wnd: int, len: nat, now: int)
    requires Flying(s, d)
    ensures var t := HandleAck(Unbounded, s, s.una + |d|, wnd, len, now);
      && Idle(t) && SameSetup(s, t) && t.una == s.una + |d| && t.wnd == wnd
      && t.out == s.out && t.written == s.written
      && t.rto == UpdateRto(s, now - s.rttTime).rto && t.timer == s.timer.Disable()
  {
    hide Wire, Estimate, Pop, RenoUpdate, SendData;
    var ack := s.una + |d|;
    LessThanExact(s.rttNum, ack);
    LessThanExact(ack, s.una);
    InRangeExact(ack - 1, s.una, s.nxt);
    SizeExact(s.una, ack);
    var v := UpdateRto(s, now - s.rttTime).(rttNum := s.nxt, dupAcks := 0, wnd := wnd);
    assert CheckDuplicate(Unbounded, MeasureRtt(s, ack, now), ack, wnd, len) == (v.(wnd := s.wnd), false);
    assert TakeAck(Unbounded, s, ack, wnd, len, now) == (Acknowledge(v, ack), false);
    PopsOne(s.list);
    RenoKeeps(TakeOff(v, ack, |d|, Pop(s.list, |d|)), 1);
    LessThanExact(ack, ack);
    SendsNothing(Acknowledge(v, ack), now);
  }

  lemma PopsOne(list: seq<Segment>)
    requires |list| == 1 && list[0].mark.Data? && |list[0].data| > 0
    ensures Pop(list, |list[0].data|) == Popped([], 1, false)
  {
    assert Pop(list[1..], 0) == Popped([], 0, false);
  }

  lemma NotInEmpty(v: int, a: int)
    ensures !InRange(v, a, a)
  {
  }

  /** At rest, an old acknowledgement still sets the window. */
  lemma IdleStale(s: State, ack: int, wnd: int, len: nat, now: int)
    requires Idle(s) && ack < s.una < ack + HALF
    ensures var t := HandleAck(Unbounded, s, ack, wnd, len, now);
      && Idle(t) && SameSetup(s, t) && t.una == s.una && t.wnd == wnd && t.out == s.out && t.written == s.written
  {
    hide Wire, SendData, Eq, InRange, LessThan;
    LessThanExact(s.rttNum, ack);
    LessThanExact(ack, s.una);
    NotInEmpty(ack - 1, s.una);
    assert TakeAck(Unbounded, s, ack, wnd, len, now) == (s.(wnd := wnd), false);
    SendsNothing(s.(wnd := wnd), now);
  }

  /** A duplicate of the last acknowledgement is counted; the third one is not taken for a loss
    * when fr.last is not less than it. */
  lemma FlyingDuplicate(s: State, d: seq<byte>, now: int)
    requires Flying(s, d) && 0 <= s.dupAcks < DUP_ACK_THRESHOLD && s.timer.mode.Enabled?
    requires s.dupAcks + 1 < DUP_ACK_THRESHOLD || !LessThan(s.fr.last, s.una)
    ensures var t := HandleAck(Unbounded, s, s.una, s.wnd, 0, now);
      && Flying(t, d) && SameSetup(s, t) && t.una == s.una && t.wnd == s.wnd && t.timer == s.timer
      && t.out == s.out && t.written == s.written
      && t.dupAcks == if s.dupAcks + 1 < DUP_ACK_THRESHOLD then s.dupAcks + 1 else 0
  {
    hide Wire, SendData;
    LessThanExact(s.una, s.una);
    LessThanExact(s.una, s.nxt);
    InRangeExact(s.una - 1, s.una, s.nxt);
    var t := s.(dupAcks := if s.dupAcks + 1 < DUP_ACK_THRESHOLD then s.dupAcks + 1 else 0);
    assert TakeAck(Unbounded, s, s.una, s.wnd, 0, now) == (t, false);
    SendsNothing(t, now);
  }

  /** The FIN asks for no window: from rest it goes out at once, also into a full one. */
  lemma FinNeedsNoWindow(s: State, now: int)
    requires Idle(s)
    ensures var t := HandleClose(Unbounded, Shutdown(Unbounded, s), now);
      t.out == s.out + [Packet(s.una, [], true)] && t.una == s.una && t.wnd == s.wnd
  {
    hide Wire, SendLoop, Eq;
    var q := Shutdown(Unbounded, s);
    assert [] + [Segment([], 0, Unset)] == [Segment([], 0, Unset)];
    var m := MoveQueue(Unbounded, q);
    assert m.list == [Segment([], 0, Unset)];
    SendsFin(RestartIdle(m, now), now);
  }

  lemma SendsFin(s: State, now: int)
    requires s.list == [Segment([], 0, Unset)] && s.writeNext == 0 && s.una == s.nxt && s.outstanding < s.cwnd
    ensures var t := SendLoop(Unbounded, s, now);
      t.out == s.out + [Packet(s.una, [], true)] && t.una == s.una && t.wnd == s.wnd
  {
    hide Wire, LessThan, Eq;
    var t := SendFin(Unbounded, s, Numbered(s, s.list[0]), now);
    assert SendOne(Unbounded, s, now) == Go(t);
    assert SendLoop(Unbounded, t, now) == t;
  }

  // ----- runs

  lemma RunNext(s: State, e: Event, now: int, es: seq<(Event, int)>)
    ensures var (t, alive) := Step(Unbounded, s, e, now); var all := [(e, now)] + es;
      && Run(Unbounded, s, all) == (if alive then Run(Unbounded, t, es) else (t, false))
      && (PossibleRun(s, all) <==> Possible(s, e) && (alive ==> PossibleRun(t, es)))
  {
    hide Step, Possible;
    assert ([(e, now)] + es)[1..] == es;
  }

  lemma {:induction false} RunAppend(s: State, es: seq<(Event, int)>, fs: seq<(Event, int)>)
    requires Run(Unbounded, s, es).1
    ensures Run(Unbounded, s, es + fs) == Run(Unbounded, Run(Unbounded, s, es).0, fs)
    ensures PossibleRun(s, es) && PossibleRun(Run(Unbounded, s, es).0, fs) ==> PossibleRun(s, es + fs)
    decreases |es|
  {
    hide Step, Possible;
    if |es| == 0 {
      assert es + fs == fs;
    } else {
      assert (es + fs)[1..] == es[1..] + fs;
      RunAppend(Step(Unbounded, s, es[0].0, es[0].1).0, es[1..], fs);
    }
  }

  /** A byte is written, sent and acknowledged, and then n - 1 more are. */
  function Cycles(una: int, wnd: int, n: nat): seq<(Event, int)>
    decreases n
  {
    if n == 0 then []
    else [(WriteCall([0]), 0), (WriteWakes, 0), (AckComes(una + 1, wnd, 0), 0)] + Cycles(una + 1, wnd, n - 1)
  }

  lemma CycleRun(s: State, es: seq<(Event, int)>) returns (t: State)
    requires Idle(s) && Fits(s, [0]) && s.wnd <= MAX_WND
    ensures Idle(t) && Fits(t, [0]) && SameSetup(s, t) && t.una == s.una + 1 && t.wnd == s.wnd
    ensures var all := [(WriteCall([0]), 0), (WriteWakes, 0), (AckComes(s.una + 1, s.wnd, 0), 0)] + es;
      Run(Unbounded, s, all) == Run(Unbounded, t, es) && (PossibleRun(s, all) <==> PossibleRun(t, es))
    ensures !s.srttInited && s.timer == Timer.Init() && s.rto > MIN_RTO ==>
      t.rto == MIN_RTO && t.timer == Timer.State(Timer.Orphaned, s.rto, s.rto, true, false)
  {
    hide Write, HandleWrite, HandleAck, Run, PossibleRun, Idle;
    var a := (AckComes(s.una + 1, s.wnd, 0), 0);
    var all := [(WriteCall([0]), 0), (WriteWakes, 0), a] + es;
    var f := Sends(s, [0], 0);
    IdleSends(s, [0], 0);
    FlyingAcked(f, [0], s.wnd, 0, 0);
    t := HandleAck(Unbounded, f, s.una + 1, s.wnd, 0, 0);
    RunNext(s, WriteCall([0]), 0, [(WriteWakes, 0), a] + es);
    RunNext(Write(Unbounded, s, [0]), WriteWakes, 0, [a] + es);
    RunNext(f, a.0, 0, es);
    assert all == [(WriteCall([0]), 0)] + ([(WriteWakes, 0), a] + es);
    assert [(WriteWakes, 0), a] + es == [(WriteWakes, 0)] + ([a] + es);
  }

  lemma {:induction false} CyclesRun(s: State, n: nat) returns (t: State)
    requires Idle(s) && Fits(s, [0]) && s.wnd <= MAX_WND
    ensures Idle(t) && Fits(t, [0]) && SameSetup(s, t) && t.una == s.una + n && t.wnd == s.wnd
    ensures Run(Unbounded, s, Cycles(s.una, s.wnd, n)) == (t, true)
    ensures PossibleRun(s, Cycles(s.una, s.wnd, n))
    decreases n
  {
    hide Idle, Fits, Step, Possible;
    t := s;
    if n > 0 {
      var u := CycleRun(s, Cycles(s.una + 1, s.wnd, n - 1));
      t := CyclesRun(u, n - 1);
    }
  }

  lemma InitIdle(iss: int, wnd: int, mss: int, bufSize: int)
    requires 1 <= wnd <= MAX_WND && 1 <= mss <= MAX_SEGMENT && bufSize >= 1
    ensures var s := Init(iss, wnd, mss, bufSize, Unbounded); Idle(s) && Fits(s, [0])
  {
  }

  /** A connection that loses nothing for 2^31 numbers: the third duplicate acknowledgement of a
    * segment in flight starts no recovery and sends nothing. */
  lemma StaysOff(iss: int, wnd: int, mss: int, bufSize: int) returns (es: seq<(Event, int)>)
    requires 1 <= wnd <= MAX_WND && 1 <= mss <= MAX_SEGMENT && bufSize >= 1
    ensures var (s, alive) := Run(Unbounded, Init(iss, wnd, mss, bufSize, Unbounded), es);
      && PossibleRun(Init(iss, wnd, mss, bufSize, Unbounded), es) && alive
      && s.una < s.nxt && s.una == s.fr.last + 1 + HALF && s.dupAcks + 1 == DUP_ACK_THRESHOLD
      && var t := HandleAck(Unbounded, s, s.una, s.wnd, 0, 0);
      && !t.fr.active && t.out == s.out && t.dupAcks == 0
  {
    hide Run, PossibleRun, Cycles, Write, HandleWrite, HandleAck, Wire;
    var s0 := Init(iss, wnd, mss, bufSize, Unbounded);
    InitIdle(iss, wnd, mss, bufSize);
    var s := CyclesRun(s0, HALF);
    var a := (AckComes(s.una, s.wnd, 0), 0);
    IdleSends(s, [0], 0);
    var f := Sends(s, [0], 0);
    NotLess(s.fr.last, s.una);
    FlyingDuplicate(f, [0], 0);
    var g := HandleAck(Unbounded, f, f.una, f.wnd, 0, 0);
    FlyingDuplicate(g, [0], 0);
    var h := HandleAck(Unbounded, g, g.una, g.wnd, 0, 0);
    FlyingDuplicate(h, [0], 0);
    RunNext(s, WriteCall([0]), 0, [(WriteWakes, 0), a, a]);
    RunNext(Write(Unbounded, s, [0]), WriteWakes, 0, [a, a]);
    RunNext(f, a.0, 0, [a]);
    RunNext(g, a.0, 0, []);
    RunNothing(h);
    var last := [(WriteCall([0]), 0), (WriteWakes, 0), a, a];
    assert last == [(WriteCall([0]), 0)] + [(WriteWakes, 0), a, a];
    assert [(WriteWakes, 0), a, a] == [(WriteWakes, 0)] + [a, a] && [a, a] == [a] + [a] && [a] == [a] + [];
    RunAppend(s0, Cycles(iss, wnd, HALF), last);
    es := Cycles(iss, wnd, HALF) + last;
  }

  lemma NotLess(last: int, una: int)
    requires una == last + 1 + HALF
    ensures !LessThan(last, una)
  {
  }

  lemma RunNothing(s: State)
    ensures Run(Unbounded, s, []) == (s, true) && PossibleRun(s, [])
  {
  }

  // ----- a run of timeouts

  /** The runtime timer is armed for the target. */
  predicate Ticking(t: Timer.State) {
    t.mode.Enabled? && t.armed && !t.wake && t.runtimeTarget == t.target
  }

  /** The runtime timer fires, the wake is seen: the segment goes out again and the timeout is
    * twice as long. */
  lemma FlyingTimesOut(s: State, d: seq<byte>)
    requires Flying(s, d) && Ticking(s.timer) && Fits(s, d) && s.rto < GIVE_UP_RTO
    ensures var at := s.timer.target; var f := Step(Unbounded, s, Fires, at).0;
      var (t, alive) := Step(Unbounded, f, TimerWakes, at);
      && Flying(t, d) && Ticking(t.timer) && Fits(t, d) && alive && t.una == s.una && t.rto == 2 * s.rto
      && t.timer.target == at + 2 * s.rto && Expires(f, TimerWakes, at)
      && t.rttTime == at
      && t.out == s.out + [Packet(s.una, d, false)]
  {
    hide Wire, SendLoop, HandleAck, HandleWrite, Write;
    var at := s.timer.target;
    var f := s.(timer := s.timer.(armed := false, wake := true));
    assert Step(Unbounded, s, Fires, at).0 == f;
    var x := f.(timer := f.timer.(wake := false, mode := Timer.Disabled));
    var b := Backoff(Unbounded, x);
    assert Numbered(b, b.list[0]) == Segment(d, b.una, Data);
    SendsAll(b, d, at);
    LessThanExact(s.una, s.nxt);
  }

  function Timeouts(at: int, rto: int, k: nat): seq<(Event, int)>
    decreases k
  {
    if k == 0 then [] else [(Fires, at), (TimerWakes, at)] + Timeouts(at + 2 * rto, 2 * rto, k - 1)
  }

  lemma TimeoutRun(s: State, d: seq<byte>, es: seq<(Event, int)>) returns (t: State)
    requires Flying(s, d) && Ticking(s.timer) && Fits(s, d) && s.rto < GIVE_UP_RTO
    ensures Flying(t, d) && Ticking(t.timer) && Fits(t, d) && t.rto == 2 * s.rto
      && t.timer.target == s.timer.target + 2 * s.rto
    ensures var at := s.timer.target; var all := [(Fires, at), (TimerWakes, at)] + es;
      && Run(Unbounded, s, all) == Run(Unbounded, t, es)
      && Expiries(Unbounded, s, all) == 1 + Expiries(Unbounded, t, es)
      && (Unmeasured(Unbounded, t, es) ==> Unmeasured(Unbounded, s, all))
      && (PossibleRun(t, es) ==> PossibleRun(s, all))
  {
    hide Step, Flying, Ticking;
    FlyingTimesOut(s, d);
    var at := s.timer.target;
    var all := [(Fires, at), (TimerWakes, at)] + es;
    var f := Step(Unbounded, s, Fires, at).0;
    FiresLives(s, at);
    t := Step(Unbounded, f, TimerWakes, at).0;
    assert all[1..] == [(TimerWakes, at)] + es;
    assert all[1..][1..] == es;
  }

  lemma FiresLives(s: State, at: int)
    ensures Step(Unbounded, s, Fires, at).1
  {
  }

  lemma {:induction false} TimeoutsRun(s: State, d: seq<byte>, k: nat)
    requires Flying(s, d) && Ticking(s.timer) && Fits(s, d) && s.rto >= 0 && (k > 0 ==> Shl(s.rto, k - 1) < GIVE_UP_RTO)
    ensures var es := Timeouts(s.timer.target, s.rto, k);
      && Run(Unbounded, s, es).1 && Expiries(Unbounded, s, es) == k && Unmeasured(Unbounded, s, es)
      && PossibleRun(s, es)
    decreases k
  {
    hide Flying, Ticking, Step, Measures, Expires;
    if k > 0 {
      ShlMonotone(s.rto, s.rto, 0, k - 1);
      var t := TimeoutRun(s, d, Timeouts(s.timer.target + 2 * s.rto, 2 * s.rto, k - 1));
      if k > 1 {
        ShlNext(s.rto, k - 2);
      }
      TimeoutsRun(t, d, k - 1);
    }
  }

  /** Nine expiries in a row can be survived: from the handshake, one quick round trip sets the
    * timeout to 200 ms, and a segment sent then may be timed out nine times. */
  lemma NineSurvive(iss: int, wnd: int, mss: int, bufSize: int)
    returns (es: seq<(Event, int)>, fs: seq<(Event, int)>)
    requires 1 <= wnd <= MAX_WND && 1 <= mss <= MAX_SEGMENT && bufSize >= 1
    ensures var s0 := Init(iss, wnd, mss, bufSize, Unbounded); var (s, alive) := Run(Unbounded, s0, es);
      && PossibleRun(s0, es + fs) && alive && s.rto == MIN_RTO
      && Unmeasured(Unbounded, s, fs) && Expiries(Unbounded, s, fs) == 9 && Run(Unbounded, s, fs).1
  {
    hide Run, PossibleRun, Write, HandleWrite, Step, Idle, Flying, Unmeasured, Expiries, Timeouts;
    var s0 := Init(iss, wnd, mss, bufSize, Unbounded);
    InitIdle(iss, wnd, mss, bufSize);
    var last := [(WriteCall([0]), 0), (WriteWakes, 0)];
    var s := CycleRun(s0, last);
    es := [(WriteCall([0]), 0), (WriteWakes, 0), (AckComes(iss + 1, wnd, 0), 0)] + last;
    var f := Sends(s, [0], 0);
    IdleSends(s, [0], 0);
    SendsRun(s, [0]);
    assert Shl(MIN_RTO, 8) == 51_200_000_000;
    TimeoutsRun(f, [0], 9);
    fs := Timeouts(f.timer.target, MIN_RTO, 9);
    RunAppend(s0, es, fs);
  }

  lemma SendsRun(s: State, d: seq<byte>)
    ensures var es := [(WriteCall(d), 0), (WriteWakes, 0)];
      Run(Unbounded, s, es) == (Sends(s, d, 0), true) && PossibleRun(s, es)
  {
    hide Write, HandleWrite, Run, PossibleRun;
    RunNext(s, WriteCall(d), 0, [(WriteWakes, 0)]);
    RunNext(Write(Unbounded, s, d), WriteWakes, 0, []);
    RunNothing(Sends(s, d, 0));
    assert [(WriteCall(d), 0), (WriteWakes, 0)] == [(WriteCall(d), 0)] + [(WriteWakes, 0)];
    assert [(WriteWakes, 0)] == [(WriteWakes, 0)] + [];
  }
}
