/** The theorems about senders and connections, carried over to uint32 sequence numbers. */
module WrapConnection {
  import opened Packets
  import opened Seqnum
  import opened WrapReceiver
  import opened WrapSender
  import opened Connection
  import Sender
  import Receiver
  import SP = SenderProofs
  import SE = SenderEvents
  import SR = SenderRuns
  import ST = SenderTimer
  import RP = ReceiverProofs

  function WrapState(c: State): State {
    State(WrapSnd(c.snd), WrapRcv(c.rcv), c.dead)
  }

  // ----- the sender against any peer

  /** The value nearest to una of a number on the wire. */
  function Unwrap(una: int, number: int): (n: int)
    ensures -HALF <= n - una < HALF
  {
    una + Wire(number - una + HALF) - HALF
  }

  lemma UnwrapWraps(una: int, number: int)
    requires 0 <= number < MOD
    ensures Wire(Unwrap(una, number)) == number
  {
    var q := (number - una + HALF) / MOD;
    assert number - una + HALF == q * MOD + Wire(number - una + HALF);
    assert Unwrap(una, number) == number + (-q) * MOD;
    hide Unwrap;
    WirePeriodic(number, -q);
  }

  /** What may happen to a sender: an acknowledgement is any 32-bit number, and its window is 16
    * bits scaled. */
  predicate OnTheWire(s: Sender.State, e: SR.Event) {
    e.AckComes? ==> 0 <= e.number < MOD && 0 <= e.wnd <= SP.MAX_WND
  }

  predicate RunOnTheWire(s: Sender.State, es: seq<(SR.Event, int)>)
    decreases |es|
  {
    |es| == 0
    || (OnTheWire(s, es[0].0)
        && (SR.Step(Uint32, s, es[0].0, es[0].1).1 ==> RunOnTheWire(SR.Step(Uint32, s, es[0].0, es[0].1).0, es[1..])))
  }

  function UnwrapEvent(s: Sender.State, e: SR.Event): SR.Event {
    if e.AckComes? then e.(number := Unwrap(s.una, e.number)) else e
  }

  lemma UnwrapPossible(s: Sender.State, e: SR.Event)
    requires OnTheWire(WrapSnd(s), e)
    ensures SR.Possible(s, UnwrapEvent(s, e)) && WrapEvent(UnwrapEvent(s, e)) == e
  {
    if e.AckComes? {
      UnwrapWraps(s.una, e.number);
    }
  }

  /** Every run of the uint32 sender is the image of a run that keeps the invariant. */
  lemma {:induction false} Lift(base: int, s: Sender.State, m: nat, es: seq<(SR.Event, int)>)
    returns (t: Sender.State, m': nat)
    requires SE.Rest(base, s, m) && RunOnTheWire(WrapSnd(s), es)
    ensures var (u, alive) := SR.Run(Uint32, WrapSnd(s), es);
      u == WrapSnd(t) && SP.Core(base, t, m') && (alive ==> SE.Rest(base, t, m'))
      && t.bufUsed - |t.written| + t.una == s.bufUsed - |s.written| + s.una
    decreases |es|
  {
    hide Wire, WrapSnd, SP.Core, SR.Step, SE.Rest, OnTheWire, UnwrapEvent, WrapEvent, SR.Possible;
    SR.RestIsCore(base, s, m);
    if |es| == 0 {
      t, m' := s, m;
    } else {
      var (e, now) := es[0];
      UnwrapPossible(s, e);
      var f := UnwrapEvent(s, e);
      StepWraps(s, f, now);
      var n := SR.StepKeeps(base, s, m, f, now);
      var (u, alive) := SR.Step(Unbounded, s, f, now);
      if alive {
        t, m' := Lift(base, u, n, es[1..]);
      } else {
        t, m' := u, n;
      }
    }
  }

  function WrapTimed(e: (SR.Event, int)): (SR.Event, int) {
    (WrapEvent(e.0), e.1)
  }

  /** And every run on unbounded numbers has its image: what it reaches, the program reaches. */
  lemma {:induction false} SenderRunWraps(s: Sender.State, es: seq<(SR.Event, int)>)
    ensures var (t, alive) := SR.Run(Unbounded, s, es);
      SR.Run(Uint32, WrapSnd(s), Map(WrapTimed, es)) == (WrapSnd(t), alive)
    decreases |es|
  {
    hide Wire, WrapSnd, SR.Step, WrapEvent;
    if |es| > 0 {
      var (e, now) := es[0];
      StepWraps(s, e, now);
      MapSlice(WrapTimed, es, 1, |es|);
      var (t, alive) := SR.Step(Unbounded, s, e, now);
      if alive {
        SenderRunWraps(t, es[1..]);
      }
    }
  }

  lemma SenderInitWraps(una: int, wnd: int, mss: int, bufSize: int)
    requires 0 <= una < MOD
    ensures WrapSnd(Sender.Init(una, wnd, mss, bufSize, Unbounded)) == Sender.Init(una, wnd, mss, bufSize, Uint32)
  {
    AddWraps(una, -1);
    var s := Sender.Init(una, wnd, mss, bufSize, Unbounded);
    assert Map(WrapSeg, s.list) == [] && Map(WrapPacket, s.out) == [];
  }

  lemma TotalWraps(list: seq<Sender.Segment>)
    ensures SP.Total(Map(WrapSeg, list)) == SP.Total(list)
    decreases |list|
  {
    hide Wire;
    if |list| > 0 {
      MapSlice(WrapSeg, list, 1, |list|);
      TotalWraps(list[1..]);
    }
  }

  /** The program's sender, with its uint32 numbers, against any peer and any acknowledgements:
    * in every run it never panics, what it holds is as long as its numbers say, and while the
    * connection lives the retransmit timer runs exactly when something is unacknowledged, and is then
    * never forgotten, if the clock does not go back. The send buffer's count is what is held, less one
    * once the FIN is queued. */
  lemma AnyPeer(iss: int, wnd: int, mss: int, bufSize: int, start: int, es: seq<(SR.Event, int)>)
    requires 0 <= iss < MOD && 0 <= wnd <= SP.MAX_WND && 1 <= mss <= SP.MAX_SEGMENT
    requires RunOnTheWire(Sender.Init(iss, wnd, mss, bufSize, Uint32), es)
    ensures var (s, alive) := SR.Run(Uint32, Sender.Init(iss, wnd, mss, bufSize, Uint32), es);
      && !s.fault
      && Wire(SP.Total(s.list) + SP.Total(s.queue)) == Wire(s.nxtList + s.inQueue - s.una)
      && s.bufUsed == SP.Total(s.list) + SP.Total(s.queue) - (if s.sndClosed then 1 else 0)
      && (alive ==> (s.timer.mode.Enabled? <==> s.una != s.nxt))
      && (alive && ST.Monotone(start, es) ==> ST.Served(s))
      && (s.fr.active ==> s.ssthresh + 3 <= s.cwnd <= s.fr.maxCwnd && LessThanEq(s.fr.first, s.una)
                          && LessThanEq(s.una, s.fr.last) && LessThan(s.fr.last, s.nxt))
  {
    hide Wire, SR.Run, SP.Core, SE.Rest, WrapSnd, RunOnTheWire;
    SenderInitWraps(iss, wnd, mss, bufSize);
    SE.InitKeeps(iss, wnd, mss, bufSize);
    var t, m := Lift(iss, Sender.Init(iss, wnd, mss, bufSize, Unbounded), 0, es);
    SafeOnTheWire(iss, t, m);
    if SR.Run(Uint32, Sender.Init(iss, wnd, mss, bufSize, Uint32), es).1 {
      TimerOnTheWire(iss, t, m);
      if ST.Monotone(start, es) {
        var last := ST.RunTimed(Uint32, Sender.Init(iss, wnd, mss, bufSize, Uint32), start, es);
      }
    }
  }

  lemma SafeOnTheWire(base: int, t: Sender.State, m: nat)
    requires SP.Core(base, t, m) && t.bufUsed - |t.written| + t.una == base
    ensures var s := WrapSnd(t);
      && !s.fault
      && Wire(SP.Total(s.list) + SP.Total(s.queue)) == Wire(s.nxtList + s.inQueue - s.una)
      && s.bufUsed == SP.Total(s.list) + SP.Total(s.queue) - (if s.sndClosed then 1 else 0)
      && (s.fr.active ==> s.ssthresh + 3 <= s.cwnd <= s.fr.maxCwnd && LessThanEq(s.fr.first, s.una)
                          && LessThanEq(s.una, s.fr.last) && LessThan(s.fr.last, s.nxt))
  {
    hide Wire, SP.Labels;
    TotalWraps(t.list);
    TotalWraps(t.queue);
    SP.TotalAppend(t.list, t.queue);
    var (a, b) := (t.nxtList, t.inQueue);
    WireCongruent(a, Wire(b));
    WireCongruent(b, a);
    WireCongruent(a + b, t.una);
    WireCongruent(Wire(a) + Wire(b), Wire(t.una));
    WireCongruent(t.una, 0);
    if t.fr.active {
      TestsOnWire(t.fr.first, t.una);
      TestsOnWire(t.una, t.fr.last);
      TestsOnWire(t.fr.last, t.nxt);
      LessThanExact(t.fr.first, t.una);
      LessThanExact(t.una, t.fr.last);
      LessThanExact(t.fr.last, t.nxt);
    }
  }

  lemma TimerOnTheWire(base: int, t: Sender.State, m: nat)
    requires SE.Rest(base, t, m)
    ensures var s := WrapSnd(t); s.timer.mode.Enabled? <==> s.una != s.nxt
  {
    hide Wire, SP.Labels, SP.Ledger;
    TestsOnWire(t.una, t.nxt);
    LessThanExact(t.una, t.nxt);
    SameWire(t.una, t.nxt);
  }

  lemma SameWire(v: int, w: int)
    ensures Wire(v) == Wire(w) <==> Eq(v, w)
  {
    WireCongruent(v, w);
    if Eq(v, w) {
      var q := (v - w) / MOD;
      assert v == w + q * MOD;
      WirePeriodic(w, q);
    }
  }

  // ----- the connection

  lemma InitWraps(iss: int, wnd: int, mss: int, sndBuf: int, rcvBuf: nat, scale: nat)
    requires 0 <= iss < MOD
    ensures WrapState(Init(Unbounded, iss, wnd, mss, sndBuf, rcvBuf, scale)) ==
      Init(Uint32, iss, wnd, mss, sndBuf, rcvBuf, scale)
  {
    hide Wire, Sender.Init, WrapSnd;
    SenderInitWraps(iss, wnd, mss, sndBuf);
    SmallOnWire(iss);
    AddWraps(iss, rcvBuf);
    var r := Init(Unbounded, iss, wnd, mss, sndBuf, rcvBuf, scale).rcv;
    assert Map(WrapPacket, r.pending) == [] && Map(WrapBlock, r.sack) == [] && Map(WrapAck, r.acks) == [];
  }

  lemma SmallOnWire(v: int)
    requires 0 <= v < MOD
    ensures Wire(v) == v
  {
  }

  lemma OutWraps(c: State, k: nat)
    ensures |WrapState(c).snd.out| == |c.snd.out| && |WrapState(c).rcv.acks| == |c.rcv.acks|
    ensures k < |c.snd.out| ==> WrapState(c).snd.out[k] == WrapPacket(c.snd.out[k])
    ensures k < |c.rcv.acks| ==> WrapState(c).rcv.acks[k] == WrapAck(c.rcv.acks[k])
    ensures WrapState(c).rcv.scale == c.rcv.scale
  {
  }

  lemma ReceiverStepWraps(c: State, e: Event)
    ensures WrapState(ReceiverStep(Unbounded, c, e)) == ReceiverStep(Uint32, WrapState(c), e)
  {
    hide Wire, WrapSnd, WrapRcv, Receiver.Handle, Receiver.SendAck, Receiver.Read;
    match e {
      case SegmentArrives(k) =>
        OutWraps(c, k);
        if k < |c.snd.out| {
          HandleWraps(c.rcv, c.snd.out[k]);
        }
      case SendAck => SendAckWraps(c.rcv);
      case Read => ReadWraps(c.rcv);
      case _ =>
    }
  }

  lemma StepOfConnectionWraps(c: State, e: Event, now: int)
    ensures WrapState(Step(Unbounded, c, e, now)) == Step(Uint32, WrapState(c), e, now)
  {
    hide Wire, WrapSnd, WrapRcv, ReceiverStep, SR.Step;
    ReceiverStepWraps(c, e);
    if e.AckArrives? {
      OutWraps(c, e.k);
    }
    var se := SenderEvent(c, e);
    if se.Some? {
      assert SenderEvent(WrapState(c), e) == Some(WrapEvent(se.value));
      StepWraps(c.snd, se.value, now);
    }
  }

  /** The program's connection is the image of the one with unbounded numbers, in every run. */
  lemma {:induction false} RunWraps(c: State, es: seq<(Event, int)>)
    ensures WrapState(Run(Unbounded, c, es)) == Run(Uint32, WrapState(c), es)
    decreases |es|
  {
    hide Wire, WrapState, Step;
    if |es| > 0 {
      StepOfConnectionWraps(c, es[0].0, es[0].1);
      RunWraps(Step(Unbounded, c, es[0].0, es[0].1), es[1..]);
    }
  }

  /** The number names a place between two segments of the write list, or nothing new. */
  ghost predicate Boundary(s: Sender.State, number: int) {
    LessThanEq(number, s.una) || exists k :: 0 <= k <= |s.list| && Eq(number, s.una + SP.Off(s.list, k))
  }

  lemma OffWraps(list: seq<Sender.Segment>, k: nat)
    requires k <= |list|
    ensures SP.Off(Map(WrapSeg, list), k) == SP.Off(list, k)
  {
    hide Wire, SP.Total;
    MapSlice(WrapSeg, list, 0, k);
    TotalWraps(list[..k]);
  }

  lemma BoundaryOnTheWire(s: Sender.State, m: nat, number: int)
    requires number <= s.una || SP.IsPlace(s, m, number)
    requires s.una - number <= HALF
    ensures Boundary(WrapSnd(s), Wire(number))
  {
    hide Wire, SP.Off;
    if number <= s.una {
      LessThanExact(number, s.una);
      TestsOnWire(number, s.una);
      EqOnWire(number, s.una);
    } else {
      var k :| 0 <= k <= m <= |s.list| && s.una + SP.Off(s.list, k) == number;
      OffWraps(s.list, k);
      TestsShifted(s.una, number, SP.Off(s.list, k));
      assert Eq(s.una + SP.Off(s.list, k), number) by { LessThanExact(number, number); }
      EqSymmetric(Wire(s.una) + SP.Off(s.list, k), Wire(number));
    }
  }

  lemma EqSymmetric(v: int, w: int)
    ensures Eq(v, w) == Eq(w, v)
  {
  }

  /** End to end, for the program's uint32 numbers and every initial one, in every run over a
    * network that loses, repeats and reorders but delivers nothing older than half the number
    * space: what the receiver hands up is a prefix of what the sender accepted, the end of the
    * stream is reported only after all of it, every acknowledgement that may still arrive names
    * a segment boundary, and the sender does not panic. */
  lemma EndToEnd(iss: int, wnd: int, mss: int, sndBuf: int, rcvBuf: nat, scale: nat, es: seq<(Event, int)>)
    requires 0 <= iss < MOD
    requires 0 <= wnd <= SP.MAX_WND && 1 <= mss <= SP.MAX_SEGMENT && rcvBuf <= RP.MAX_BUFFER && scale <= MAX_SCALE
    requires FreshRun(Init(Unbounded, iss, wnd, mss, sndBuf, rcvBuf, scale), es)
    ensures var c := Run(Uint32, Init(Uint32, iss, wnd, mss, sndBuf, rcvBuf, scale), es);
      && Faithful(c)
      && var u := Run(Unbounded, Init(Unbounded, iss, wnd, mss, sndBuf, rcvBuf, scale), es);
      && |c.rcv.acks| == |u.rcv.acks|
      && forall k :: 0 <= k < |c.rcv.acks| && Fresh(u, AckArrives(k, 0)) ==> Boundary(c.snd, c.rcv.acks[k].number)
  {
    hide Wire, Run, Init, Faithful, SP.IsPlace, WrapSnd, WrapRcv, Boundary;
    var c0 := Init(Unbounded, iss, wnd, mss, sndBuf, rcvBuf, scale);
    InitWraps(iss, wnd, mss, sndBuf, rcvBuf, scale);
    RunWraps(c0, es);
    var m := Connection.EndToEnd(iss, wnd, mss, sndBuf, rcvBuf, scale, es);
    var u := Run(Unbounded, c0, es);
    FaithfulWraps(u);
    OutWraps(u, 0);
    forall k | 0 <= k < |u.rcv.acks| && Fresh(u, AckArrives(k, 0))
      ensures Boundary(WrapState(u).snd, WrapState(u).rcv.acks[k].number)
    {
      OutWraps(u, k);
      assert u.rcv.acks[k] in u.rcv.acks;
      BoundaryOnTheWire(u.snd, m, u.rcv.acks[k].number);
    }
  }

  lemma FaithfulWraps(c: State)
    requires Faithful(c)
    ensures Faithful(WrapState(c))
  {
    hide Wire, Flat;
  }
}
