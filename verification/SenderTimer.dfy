/** The retransmit timer inside the sender, over whole runs and at either width: it is never
  * forgotten while something is unacknowledged, and its timeout doubles until it gives up.
  */
module SenderTimer {
  import opened Packets
  import opened Seqnum
  import opened Sender
  import opened SenderProofs
  import opened SenderEvents
  import opened SenderRuns
  import Timer

  // ----- what the routines leave alone

  lemma SendFinTouches(w: Width, s: State, g: Segment, now: int)
    requires s.writeNext < |s.list|
    ensures var t := SendFin(w, s, g, now);
      SameButList(s, t) && t.outstanding == s.outstanding && |t.list| - t.writeNext < |s.list| - s.writeNext
  {
    hide Add, LessThan;
  }

  lemma SendBytesTouches(w: Width, s: State, g: Segment, now: int)
    requires s.writeNext < |s.list|
    ensures var t := SendBytes(w, s, g, now); SameButList(s, t) && t.outstanding == s.outstanding + 1
  {
    hide Add, LessThan, Piece, Cut;
  }

  lemma SendOneTouches(w: Width, s: State, now: int)
    requires s.writeNext < |s.list|
    ensures var r := SendOne(w, s, now);
      && (r.Halt? ==> SameButList(s.(fault := r.s.fault), r.s)) && (r.Go? ==> SameButList(s, r.s))
      && (r.Go? && r.s.outstanding <= s.outstanding ==>
           r.s.outstanding == s.outstanding && |r.s.list| - r.s.writeNext < |s.list| - s.writeNext)
  {
    hide SendFin, SendBytes, LessThan, WindowEnd;
    var g := Numbered(s, s.list[s.writeNext]);
    SendFinTouches(w, s, g, now);
    SendBytesTouches(w, s, g, now);
  }

  /** sendData writes the list, its cursor, what it sends and the times of sending. */
  lemma {:induction false} SendLoopTouches(w: Width, s: State, now: int)
    ensures var t := SendLoop(w, s, now); SameButList(s.(fault := t.fault), t)
    decreases Max(0, s.cwnd - s.outstanding), |s.list| - s.writeNext
  {
    hide SendOne;
    if s.writeNext < |s.list| && s.outstanding < s.cwnd {
      SendOneTouches(w, s, now);
      match SendOne(w, s, now) {
        case Halt(t) =>
        case Go(t) => SendLoopTouches(w, t, now);
      }
    }
  }

  /** The timeout is a real one, and the timer is never forgotten. */
  ghost predicate Timed(s: State, now: int) {
    s.rto >= 0 && Timer.Inv(s.timer, now)
  }

  lemma SendDataTimed(w: Width, s: State, now: int)
    ensures var t := SendData(w, s, now);
      && (Timed(s, now) ==> Timed(t, now)) && t.rto == s.rto
      && (t.timer == s.timer || t.timer == s.timer.Enable(now, s.rto))
  {
    hide SendLoop, Eq;
    SendLoopTouches(w, RestartIdle(s, now), now);
    if Timed(s, now) {
      Timer.ApplyKeeps(s.timer, now, Timer.Start(s.rto));
    }
  }

  lemma AcknowledgeTouches(s: State, ack: int)
    ensures var t := Acknowledge(s, ack); t.rto == s.rto && t.timer == s.timer.Disable()
  {
    hide Size, Pop, Grow;
  }

  /** A round trip is measured when the acknowledgement covers the number it is measured on. */
  predicate Measures(s: State, e: Event) {
    e.AckComes? && LessThan(s.rttNum, e.number)
  }

  lemma TakeAckTouches(w: Width, s: State, ack: int, wnd: int, len: nat, now: int)
    ensures var t := TakeAck(w, s, ack, wnd, len, now).0;
      && (t.timer == s.timer || t.timer == s.timer.Disable()) && t.rto == MeasureRtt(s, ack, now).rto
  {
    hide InRange, Judge, Acknowledge, MeasureRtt;
    MeasureTouches(s, ack, now);
    AcknowledgeTouches(CheckDuplicate(w, MeasureRtt(s, ack, now), ack, wnd, len).0.(wnd := wnd), ack);
  }

  lemma MeasureTouches(s: State, ack: int, now: int)
    ensures var t := MeasureRtt(s, ack, now);
      && t.timer == s.timer && (if LessThan(s.rttNum, ack) then t.rto >= MIN_RTO else t.rto == s.rto)
  {
    hide LessThan, Estimate;
  }

  lemma HandleAckTimed(w: Width, s: State, ack: int, wnd: int, len: nat, now: int)
    ensures var t := HandleAck(w, s, ack, wnd, len, now);
      && (Timed(s, now) ==> Timed(t, now)) && (!LessThan(s.rttNum, ack) ==> t.rto == s.rto)
  {
    hide LessThan, TakeAck, SendData, MeasureRtt, Timer.Inv, Eq;
    TakeAckTouches(w, s, ack, wnd, len, now);
    MeasureTouches(s, ack, now);
    if Timed(s, now) {
      Timer.ApplyKeeps(s.timer, now, Timer.Stop);
    }
    var (t, rtx) := TakeAck(w, s, ack, wnd, len, now);
    SendDataTimed(w, if rtx then Resend(t, now) else t, now);
  }

  // ----- expiries

  predicate Expires(s: State, e: Event, now: int) {
    e.TimerWakes? && s.timer.wake && s.timer.(wake := false).CheckExpiration(now).1
  }

  lemma TimerWakesTimed(w: Width, s: State, now: int)
    requires s.timer.wake
    ensures var (t, alive) := TimerExpired(w, s, now);
      && (Timed(s, now) ==> Timed(t, now))
      && t.rto == (if Expires(s, TimerWakes, now) && alive then 2 * s.rto else s.rto)
      && (alive <==> !Expires(s, TimerWakes, now) || s.rto < GIVE_UP_RTO)
  {
    hide Add, SendData, Timer.Inv;
    if Timed(s, now) {
      Timer.ApplyKeeps(s.timer, now, Timer.Check);
    }
    var t := s.(timer := s.timer.(wake := false).CheckExpiration(now).0);
    SendDataTimed(w, Backoff(w, t), now);
  }

  /** One event: the timer keeps its invariant; the timeout changes with a measurement or an
    * expiry alone, which doubles it; and only an expiry after a minute's timeout ends it all. */
  lemma StepTimed(w: Width, s: State, e: Event, now: int)
    ensures var (t, alive) := Step(w, s, e, now);
      && (Timed(s, now) ==> Timed(t, now))
      && (!Measures(s, e) ==> t.rto == if Expires(s, e, now) && alive then 2 * s.rto else s.rto)
      && (alive <==> !Expires(s, e, now) || s.rto < GIVE_UP_RTO)
  {
    hide Write, Shutdown, MoveQueue, SendData, NewMtu, TimerExpired, HandleAck, LessThan, Timer.Inv;
    match e {
      case WriteCall(data) => WriteTouches(w, s, data);
      case ShutdownCall => WriteTouches(w, s, []);
      case WriteWakes =>
        WriteTouches(w, s, []);
        SendDataTimed(w, MoveQueue(w, s), now);
      case CloseWakes =>
        WriteTouches(w, s, []);
        SendDataTimed(w, MoveQueue(w, s), now);
      case Fires =>
        if Due(s.timer, now) && Timed(s, now) {
          Timer.ApplyKeeps(s.timer, now, Timer.Fire);
        }
      case TimerWakes =>
        if s.timer.wake {
          TimerWakesTimed(w, s, now);
        }
      case MtuChanges(mtu, optionLen, count) => NewMtuTimed(w, s, mtu, optionLen, count, now);
      case EmptyGoes =>
      case AckComes(number, wnd, len) => HandleAckTimed(w, s, number, wnd, len, now);
    }
  }

  lemma WriteTouches(w: Width, s: State, data: seq<byte>)
    ensures Write(w, s, data).timer == s.timer && Write(w, s, data).rto == s.rto
    ensures Shutdown(w, s).timer == s.timer && Shutdown(w, s).rto == s.rto
    ensures MoveQueue(w, s).timer == s.timer && MoveQueue(w, s).rto == s.rto
  {
    hide Add;
  }

  lemma NewMtuTimed(w: Width, s: State, mtu: int, optionLen: nat, count: nat, now: int)
    ensures var t := NewMtu(w, s, mtu, optionLen, count, now);
      (Timed(s, now) ==> Timed(t, now)) && t.rto == s.rto
  {
    hide SendData, Timer.Inv;
    var m := mtu - TCP_HEADER - optionLen;
    if m < s.maxPayload {
      var size := if m <= 0 then 1 else m;
      SendDataTimed(w, s.(maxPayload := size, outstanding := Max(s.outstanding - count, 0),
                     writeNext := FirstTooLong(s.list, s.writeNext, size, 0)), now);
    }
  }

  // ----- runs

  /** The clock does not go back. */
  predicate Monotone(now: int, es: seq<(Event, int)>)
    decreases |es|
  {
    |es| == 0 || (now <= es[0].1 && Monotone(es[0].1, es[1..]))
  }

  function Last(now: int, es: seq<(Event, int)>): int {
    if |es| == 0 then now else es[|es| - 1].1
  }

  lemma Later(s: State, now: int, then': int)
    requires Timed(s, now) && now <= then'
    ensures Timed(s, then')
  {
  }

  /** In every run whose clock does not go back, the sender's timer keeps the timer's invariant:
    * what is enabled has its wake pending, or the runtime timer armed by its target. */
  lemma {:induction false} RunTimed(w: Width, s: State, now: int, es: seq<(Event, int)>) returns (last: int)
    requires Timed(s, now) && Monotone(now, es)
    ensures now <= last <= Last(now, es) && Timed(Run(w, s, es).0, last)
    ensures Run(w, s, es).1 ==> last == Last(now, es)
    decreases |es|
  {
    hide Step, Timed;
    last := now;
    if |es| > 0 {
      var (e, at) := es[0];
      Later(s, now, at);
      StepTimed(w, s, e, at);
      last := at;
      LastMonotone(at, es[1..]);
      if Step(w, s, e, at).1 {
        last := RunTimed(w, Step(w, s, e, at).0, at, es[1..]);
      }
    }
  }

  lemma {:induction false} LastMonotone(now: int, es: seq<(Event, int)>)
    requires Monotone(now, es)
    ensures now <= Last(now, es)
    decreases |es|
  {
    if |es| > 0 {
      LastMonotone(es[0].1, es[1..]);
    }
  }

  /** The timer is there for what is in flight: its wake is pending, or the runtime timer is armed
    * by its target. */
  predicate Served(s: State) {
    s.una != s.nxt ==>
      s.timer.mode.Enabled? && (s.timer.wake || (s.timer.armed && s.timer.runtimeTarget <= s.timer.target))
  }

  /** In every run against any peer, while the connection lives the timer serves what is
    * unacknowledged, and is idle otherwise. */
  lemma NeverForgotten(base: int, s: State, m: nat, now: int, es: seq<(Event, int)>)
    requires Rest(base, s, m) && PossibleRun(s, es) && Timed(s, now) && Monotone(now, es)
    ensures var (t, alive) := Run(Unbounded, s, es);
      alive ==> Served(t) && (t.timer.mode.Enabled? ==> t.una != t.nxt) && Timed(t, Last(now, es))
  {
    hide Run, PossibleRun, Core, Monotone;
    var m' := RunKeeps(base, s, m, es);
    var last := RunTimed(Unbounded, s, now, es);
  }

  /** The expiries of a run, that which ends it included. */
  function Expiries(w: Width, s: State, es: seq<(Event, int)>): nat
    decreases |es|
  {
    if |es| == 0 then 0
    else
      var (t, alive) := Step(w, s, es[0].0, es[0].1);
      (if Expires(s, es[0].0, es[0].1) then 1 else 0) + if alive then Expiries(w, t, es[1..]) else 0
  }

  /** No round trip is measured in the run. */
  predicate Unmeasured(w: Width, s: State, es: seq<(Event, int)>)
    decreases |es|
  {
    |es| == 0
    || (!Measures(s, es[0].0)
        && (Step(w, s, es[0].0, es[0].1).1 ==> Unmeasured(w, Step(w, s, es[0].0, es[0].1).0, es[1..])))
  }

  lemma {:induction false} ShlNext(x: nat, n: nat)
    ensures Shl(2 * x, n) == Shl(x, n + 1)
    decreases n
  {
    if n > 0 {
      ShlNext(x, n - 1);
    }
  }

  /** While no round trip is measured, the timeout is the first one doubled once for each expiry;
    * and the connection is given up exactly at the expiry that finds a minute or more. */
  lemma {:induction false} RunBacksOff(w: Width, s: State, es: seq<(Event, int)>)
    requires s.rto >= 0 && Unmeasured(w, s, es)
    ensures var (t, alive) := Run(w, s, es); var k := Expiries(w, s, es);
      && (alive ==> t.rto == Shl(s.rto, k))
      && (alive <==> k == 0 || Shl(s.rto, k - 1) < GIVE_UP_RTO)
    decreases |es|
  {
    hide Step, Expires, Measures;
    if |es| > 0 {
      var (e, at) := es[0];
      StepTimed(w, s, e, at);
      if Step(w, s, e, at).1 {
        RunBacksOff(w, Step(w, s, e, at).0, es[1..]);
        var k := Expiries(w, Step(w, s, e, at).0, es[1..]);
        ShlNext(s.rto, k);
        if k > 0 {
          ShlNext(s.rto, k - 1);
        }
      }
    }
  }

  /** Retransmitting goes on for nine expiries at most: the tenth in a row gives up, whatever
    * else happens in between, as long as no round trip is measured. */
  lemma TenthGivesUp(w: Width, s: State, es: seq<(Event, int)>)
    requires s.rto >= MIN_RTO && Unmeasured(w, s, es)
    ensures Expiries(w, s, es) >= 10 ==> !Run(w, s, es).1
  {
    RunBacksOff(w, s, es);
    if Expiries(w, s, es) >= 10 {
      ShlMonotone(MIN_RTO, s.rto, 9, Expiries(w, s, es) - 1);
      assert Shl(MIN_RTO, 9) == 102_400_000_000;
    }
  }
}
