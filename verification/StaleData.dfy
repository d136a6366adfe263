/** Why data must be younger while the receiver is overrun: a duplicate of age 2^31 - 1, which an
  * overrun receiver queues, stays in the heap until the numbers have come round, and is then
  * delivered a second time.
  */
module StaleData {
  import opened Packets
  import opened Seqnum
  import opened Connection
  import opened Overrun
  import Sender
  import Receiver
  import Sack
  import SC = SenderCycle
  import SR = SenderRuns
  import CW = ConnectionWindow
  import WC = WrapConnection

  /** Between two rounds: everything written is delivered, read and acknowledged, and ps is queued. */
  ghost predicate Quiet(c: State, ps: seq<Packet>) {
    && !c.dead && SC.Idle(c.snd) && c.snd.wnd == 2 && c.snd.maxPayload == 2 && c.snd.bufSize == 2
    && var r := c.rcv;
    && !r.closed && r.scale == 0 && r.nxt == c.snd.una && r.acc == r.nxt + 2 && r.pending == ps
    && r.ready == [] && r.bufUsed == 0 && r.bufSize == 2 && r.pendingSize == 2 && r.taken == c.snd.written
    && (ps == [] ==> r.pendingUsed == 0)
  }

  /** A queued byte that is neither behind rcvNxt nor at it, modulo 2^32, though it was long ago. */
  ghost predicate Stays(ps: seq<Packet>, nxt: int) {
    ps == [] || (|ps| == 1 && |ps[0].data| == 1 && HALF < nxt - ps[0].num < MOD)
  }

  lemma NotDrained(r: Receiver.State)
    requires Stays(r.pending, r.nxt)
    ensures Receiver.Drain(Unbounded, r) == r
  {
    if r.pending != [] {
      NeitherPassedNorNext(r, r.pending[0]);
    }
  }

  lemma NeitherPassedNorNext(r: Receiver.State, o: Packet)
    requires |o.data| == 1 && HALF < r.nxt - o.num < MOD
    ensures !Receiver.Passed(r, o) && !Receiver.Consumable(r, o)
  {
    hide Wire;
    FarBehind(o.num, r.nxt);
    assert o.num + 1 - 1 == o.num && o.num + 1 - o.num == 1;
  }

  lemma FarBehind(v: int, w: int)
    requires HALF < w - v < MOD
    ensures Wire(v - w) < HALF && Wire(w - v) == w - v && Wire(1) == 1
  {
    assert Wire(v - w) == MOD - (w - v);
  }

  lemma TakesWhileStale(r: Receiver.State, p: Packet)
    requires !r.closed && Stays(r.pending, r.nxt + |p.data|)
    requires p.num == r.nxt && 1 <= |p.data| < HALF && !p.fin && r.nxt < r.acc < r.nxt + HALF
    ensures Receiver.Handle(Unbounded, r, p) ==
      r.(ready := r.ready + [p.data], bufUsed := r.bufUsed + |p.data|, nxt := r.nxt + |p.data|,
         sack := Sack.Trim(r.sack, r.nxt + |p.data|))
  {
    hide Wire, Sack.Trim, Receiver.Drain, Stays;
    Taken(r, p);
    NotDrained(Receiver.Consume(Unbounded, r, p, false));
  }

  // ----- runs, one event or one run after another

  lemma One(c: State, e: Event)
    ensures Run(Unbounded, c, [(e, 0)]) == Step(Unbounded, c, e, 0)
    ensures CW.Recent(c, e) ==> CW.RecentRun(c, [(e, 0)])
  {
    hide Step, CW.Recent;
    RunNext(c, e, []);
    assert [(e, 0)] == [(e, 0)] + [];
  }

  lemma {:induction false} Then(c: State, es: seq<(Event, int)>, fs: seq<(Event, int)>)
    ensures Run(Unbounded, c, es + fs) == Run(Unbounded, Run(Unbounded, c, es), fs)
    ensures CW.RecentRun(c, es) && CW.RecentRun(Run(Unbounded, c, es), fs) ==> CW.RecentRun(c, es + fs)
    decreases |es|
  {
    hide Step, CW.Recent;
    if |es| == 0 {
      assert es + fs == fs;
    } else {
      assert (es + fs)[1..] == es[1..] + fs;
      Then(Step(Unbounded, c, es[0].0, es[0].1), es[1..], fs);
    }
  }

  lemma ReceiverSteps(c: State, k: nat)
    ensures k < |c.snd.out| ==>
      Step(Unbounded, c, SegmentArrives(k), 0) == c.(rcv := Receiver.Handle(Unbounded, c.rcv, c.snd.out[k]))
    ensures Step(Unbounded, c, SendAck, 0) == c.(rcv := Receiver.SendAck(Unbounded, c.rcv))
    ensures Step(Unbounded, c, Read, 0) == c.(rcv := Receiver.Read(c.rcv))
  {
    hide Receiver.Handle, Receiver.SendAck, Receiver.Read;
  }

  lemma AckStep(c: State, k: nat)
    requires !c.dead && k < |c.rcv.acks| && c.rcv.scale == 0
    ensures Step(Unbounded, c, AckArrives(k, 0), 0) ==
      c.(snd := Sender.HandleAck(Unbounded, c.snd, c.rcv.acks[k].number, c.rcv.acks[k].window, 0, 0))
  {
    hide Sender.HandleAck;
  }

  /** Data is written and sent, and arrives in order. */
  lemma SendRound(c: State, d: seq<byte>) returns (t: State, es: seq<(Event, int)>)
    requires !c.dead && SC.Idle(c.snd) && SC.Fits(c.snd, d) && c.rcv.nxt == c.snd.una && !c.rcv.closed
    requires c.rcv.nxt < c.rcv.acc < c.rcv.nxt + HALF && Stays(c.rcv.pending, c.rcv.nxt + |d|)
    ensures t == Run(Unbounded, c, es) && CW.RecentRun(c, es) && !t.dead
    ensures SC.Flying(t.snd, d) && SC.SameSetup(c.snd, t.snd) && t.snd.una == c.snd.una && t.snd.wnd == c.snd.wnd
      && t.snd.out == c.snd.out + [Packet(c.snd.una, d, false)] && t.snd.written == c.snd.written + d
    ensures var r := c.rcv;
      t.rcv == r.(ready := r.ready + [d], bufUsed := r.bufUsed + |d|, nxt := r.nxt + |d|, sack := t.rcv.sack)
  {
    hide Wire, SC.Idle, SC.Flying, Sender.HandleWrite, Sender.Write, Run, Step, CW.RecentRun, Stays;
    SC.IdleSends(c.snd, d, 0);
    SendsSteps(c, d);
    var f := c.(snd := SC.Sends(c.snd, d, 0));
    TakesWhileStale(f.rcv, Packet(c.snd.una, d, false));
    ReceiverSteps(f, |c.snd.out|);
    t := Step(Unbounded, f, SegmentArrives(|c.snd.out|), 0);
    One(f, SegmentArrives(|c.snd.out|));
    var fs := [(Sends(SR.WriteCall(d)), 0), (Sends(SR.WriteWakes), 0)];
    Then(c, fs, [(SegmentArrives(|c.snd.out|), 0)]);
    es := fs + [(SegmentArrives(|c.snd.out|), 0)];
  }

  /** The receiver acknowledges, and the acknowledgement arrives. */
  lemma AckRound(c: State, d: seq<byte>) returns (t: State, es: seq<(Event, int)>)
    requires !c.dead && SC.Flying(c.snd, d) && c.rcv.nxt == c.snd.una + |d|
    requires var r := c.rcv;
      && r.scale == 0 && 0 <= r.bufUsed <= r.bufSize <= MAX_WINDOW
      && r.nxt <= r.acc <= r.nxt + (r.bufSize - r.bufUsed)
    ensures t == Run(Unbounded, c, es) && CW.RecentRun(c, es) && !t.dead
    ensures var r := c.rcv; var n := r.bufSize - r.bufUsed;
      && SC.Idle(t.snd) && SC.SameSetup(c.snd, t.snd) && t.snd.una == c.snd.una + |d| && t.snd.wnd == n
      && t.snd.out == c.snd.out && t.snd.written == c.snd.written
      && t.rcv == r.(acc := r.nxt + n, acks := r.acks + [Ack(r.nxt, n)])
  {
    hide Wire, SC.Idle, SC.Flying, Sender.HandleAck, Run, Step, CW.RecentRun;
    AnswersUnscaled(c.rcv);
    ReceiverSteps(c, 0);
    var a := Step(Unbounded, c, SendAck, 0);
    var k := |c.rcv.acks|;
    AckStep(a, k);
    SC.FlyingAcked(c.snd, d, a.rcv.acks[k].window, 0, 0);
    t := Step(Unbounded, a, AckArrives(k, 0), 0);
    One(c, SendAck);
    One(a, AckArrives(k, 0));
    FlyingIsShort(c.snd, d);
    Then(c, [(SendAck, 0)], [(AckArrives(k, 0), 0)]);
    es := [(SendAck, 0)] + [(AckArrives(k, 0), 0)];
  }

  lemma FlyingIsShort(s: Sender.State, d: seq<byte>)
    requires SC.Flying(s, d)
    ensures 1 <= |d| < HALF
  {
  }

  /** Sent, delivered, read and acknowledged. */
  lemma Round(c: State, ps: seq<Packet>, d: seq<byte>) returns (t: State, es: seq<(Event, int)>)
    requires Quiet(c, ps) && 1 <= |d| <= 2 && Stays(ps, c.rcv.nxt + |d|)
    ensures t == Run(Unbounded, c, es) && CW.RecentRun(c, es)
    ensures Quiet(t, ps) && t.rcv.nxt == c.rcv.nxt + |d| && t.snd.out == c.snd.out + [Packet(c.snd.una, d, false)]
      && |t.rcv.acks| > 0 && t.rcv.acks[|t.rcv.acks| - 1] == Ack(t.rcv.nxt, 2)
  {
    hide Wire, SC.Idle, SC.Flying, Run, Step, CW.RecentRun, Stays;
    var f, fs := SendRound(c, d);
    ReceiverSteps(f, 0);
    var b := Step(Unbounded, f, Read, 0);
    One(f, Read);
    var gs;
    t, gs := AckRound(b, d);
    Then(f, [(Read, 0)], gs);
    Then(c, fs, [(Read, 0)] + gs);
    es := fs + ([(Read, 0)] + gs);
  }

  lemma {:induction false} Rounds(c: State, ps: seq<Packet>, n: nat) returns (t: State, es: seq<(Event, int)>)
    requires Quiet(c, ps) && (ps == [] || (n > 0 ==> Stays(ps, c.rcv.nxt + 1) && Stays(ps, c.rcv.nxt + n)))
    ensures t == Run(Unbounded, c, es) && CW.RecentRun(c, es)
    ensures Quiet(t, ps) && t.rcv.nxt == c.rcv.nxt + n && c.snd.out <= t.snd.out
    ensures if n == 0 then t == c else
      && |c.snd.out| < |t.snd.out| && t.snd.out[|c.snd.out|] == Packet(c.snd.una, [0], false)
      && |t.rcv.acks| > 0 && t.rcv.acks[|t.rcv.acks| - 1] == Ack(t.rcv.nxt, 2)
    decreases n
  {
    hide Quiet, Run, CW.RecentRun;
    t, es := c, [];
    if n > 0 {
      var b, fs := Round(c, ps, [0]);
      QuietUna(c, ps);
      var gs;
      t, gs := Rounds(b, ps, n - 1);
      Then(c, fs, gs);
      es := fs + gs;
    } else {
      Nothing(c);
    }
  }

  lemma QuietUna(c: State, ps: seq<Packet>)
    requires Quiet(c, ps)
    ensures c.rcv.nxt == c.snd.una
  {
  }

  lemma Nothing(c: State)
    ensures Run(Unbounded, c, []) == c && CW.RecentRun(c, [])
  {
  }

  // ----- the overrun, and what comes of it

  /** One past its edge the receiver's window is almost the whole number space: it queues a byte of
    * age 2^31 - 1. */
  lemma QueuesOld(r: Receiver.State, o: Packet)
    requires !r.closed && r.pending == [] && r.pendingUsed == 0 < r.pendingSize && r.scale == 0
    requires r.acc == r.nxt - 1 && r.bufUsed >= r.bufSize
    requires |o.data| == 1 && !o.fin && r.nxt - o.num == HALF - 1
    ensures var t := Receiver.Handle(Unbounded, r, o);
      t == r.(pending := [o], pendingUsed := 1, sack := t.sack, acc := r.nxt, acks := r.acks + [Ack(r.nxt, 0)])
  {
    hide Sack.Update, Wire, Receiver.SendAck;
    assert Wire(r.acc - r.nxt) == MOD - 1 && Wire(o.num - r.nxt) == MOD - (HALF - 1) by { WireOf(r, o); }
    assert Wire(r.nxt - o.num) == HALF - 1 && Wire(1) == 1 by { WireOf(r, o); }
    assert Wire(r.nxt + (MOD - 1) - r.nxt) == MOD - 1 by { WireOf(r, o); }
    Shut(Receiver.Store(r, o).(sack := Sack.Update(r.sack, o.num, o.num + 1, r.nxt)));
  }

  lemma WireOf(r: Receiver.State, o: Packet)
    requires r.acc == r.nxt - 1 && r.nxt - o.num == HALF - 1
    ensures Wire(r.acc - r.nxt) == MOD - 1 && Wire(o.num - r.nxt) == MOD - (HALF - 1)
    ensures Wire(r.nxt - o.num) == HALF - 1 && Wire(1) == 1 && Wire(r.nxt + (MOD - 1) - r.nxt) == MOD - 1
  {
  }

  lemma Shut(r: Receiver.State)
    requires r.acc == r.nxt - 1 && r.bufUsed >= r.bufSize && r.scale == 0
    ensures Receiver.SendAck(Unbounded, r) == r.(acc := r.nxt, acks := r.acks + [Ack(r.nxt, 0)])
  {
    hide Wire;
    LessThanExact(r.acc, r.nxt);
    SizeExact(r.nxt, r.nxt);
  }

  /** From a quiet state: a byte is sent and acknowledged but not read; then the acknowledgement
    * before it arrives again, and two bytes go out where one fits. */
  lemma OverrunRound(c: State) returns (t: State, es: seq<(Event, int)>)
    requires Quiet(c, []) && |c.rcv.acks| > 0 && c.rcv.acks[|c.rcv.acks| - 1] == Ack(c.rcv.nxt, 2)
    ensures t == Run(Unbounded, c, es) && CW.RecentRun(c, es) && !t.dead
    ensures SC.Flying(t.snd, [0, 0]) && SC.SameSetup(c.snd, t.snd) && t.snd.una == c.snd.una + 1
      && c.snd.out <= t.snd.out && t.snd.written == (c.snd.written + [0]) + [0, 0]
    ensures var r := c.rcv;
      t.rcv == r.(ready := [[0], [0, 0]], bufUsed := 3, nxt := r.nxt + 3, acc := r.nxt + 2, sack := t.rcv.sack,
                  acks := t.rcv.acks)
  {
    hide Wire, SC.Idle, SC.Flying, Run, Step, CW.RecentRun, Stays, Shl;
    var k := |c.rcv.acks| - 1;
    NothingStays(c.rcv.nxt + 1);
    NothingStays(c.rcv.nxt + 3);
    var a, as' := SendRound(c, [0]);
    var b, bs := AckRound(a, [0]);
    Then(c, as', bs);
    NotScaled(2);
    LateAckOverruns(b, k, [0, 0]);
    var late := [(AckArrives(k, 0), 0), (Sends(SR.WriteCall([0, 0])), 0), (Sends(SR.WriteWakes), 0)];
    var d := Run(Unbounded, b, late);
    var n := |b.snd.out|;
    TakesNext(d.rcv, Packet(b.snd.una, [0, 0], false));
    ReceiverSteps(d, n);
    t := Step(Unbounded, d, SegmentArrives(n), 0);
    One(d, SegmentArrives(n));
    Then(b, late, [(SegmentArrives(n), 0)]);
    Then(c, as' + bs, late + [(SegmentArrives(n), 0)]);
    es := (as' + bs) + (late + [(SegmentArrives(n), 0)]);
  }

  lemma NothingStays(nxt: int)
    ensures Stays([], nxt)
  {
  }

  /** The first byte ever sent arrives once more; then everything is read and acknowledged. */
  lemma OldRound(c: State, o: Packet) returns (t: State, es: seq<(Event, int)>)
    requires !c.dead && SC.Flying(c.snd, [0, 0]) && c.rcv.nxt == c.snd.una + 2 && c.snd.maxPayload == c.snd.bufSize == 2
    requires |c.snd.out| > 0 && c.snd.out[0] == o == Packet(c.rcv.nxt - (HALF - 1), [0], false)
    requires var r := c.rcv;
      && !r.closed && r.scale == 0 && r.pending == [] && r.pendingUsed == 0 && r.pendingSize == 2
      && r.ready == [[0], [0, 0]] && r.bufUsed == 3 && r.bufSize == 2 && r.acc == r.nxt - 1
      && (r.taken + [0]) + [0, 0] == c.snd.written
    ensures t == Run(Unbounded, c, es) && CW.RecentRun(c, es)
    ensures Quiet(t, [o]) && t.rcv.nxt == c.rcv.nxt
  {
    hide Wire, SC.Idle, SC.Flying, Run, Step, CW.RecentRun, Stays;
    QueuesOld(c.rcv, o);
    ReceiverSteps(c, 0);
    var g := Step(Unbounded, c, SegmentArrives(0), 0);
    One(c, SegmentArrives(0));
    ReceiverSteps(g, 0);
    var x := Step(Unbounded, g, Read, 0);
    One(g, Read);
    ReceiverSteps(x, 0);
    var y := Step(Unbounded, x, Read, 0);
    One(x, Read);
    var fs;
    t, fs := AckRound(y, [0, 0]);
    Then(x, [(Read, 0)], fs);
    Then(g, [(Read, 0)], [(Read, 0)] + fs);
    Then(c, [(SegmentArrives(0), 0)], [(Read, 0)] + ([(Read, 0)] + fs));
    es := [(SegmentArrives(0), 0)] + ([(Read, 0)] + ([(Read, 0)] + fs));
  }

  /** When the numbers have come round, the queued byte passes for the next one. */
  lemma TakesStale(r: Receiver.State, p: Packet, o: Packet)
    requires !r.closed && r.pending == [o] && |o.data| == 1 && !o.fin && r.nxt + 1 == o.num + MOD
    requires p.num == r.nxt && |p.data| == 1 && !p.fin && r.nxt < r.acc < r.nxt + HALF && r.ready == []
    ensures Receiver.Delivered(Receiver.Handle(Unbounded, r, p)) == r.taken + (p.data + o.data)
  {
    hide Wire, Sack.Trim;
    Taken(r, p);
    var c := Receiver.Consume(Unbounded, r, p, false);
    Round32(o.num, c.nxt);
    assert Receiver.DrainOne(Unbounded, c) == c.(pending := [], pendingUsed := c.pendingUsed - 1,
      ready := [p.data, o.data], bufUsed := c.bufUsed + 1, nxt := o.num + 1, sack := Sack.Trim(c.sack, o.num + 1));
    assert [p.data, o.data][1..] == [o.data] && [o.data][1..] == [] && Flat([o.data]) == o.data;
  }

  lemma Round32(v: int, w: int)
    requires w == v + MOD
    ensures Wire(v - w) == 0 && Wire(w - v) == 0 && Wire(v + 1 - 1 - w) == 0 && Wire(v + 1 - v) == 1
  {
  }

  /** One more byte is written and sent, and the first byte ever sent is delivered behind it. */
  lemma LastRound(c: State, o: Packet) returns (es: seq<(Event, int)>)
    requires Quiet(c, [o]) && |o.data| == 1 && !o.fin && c.rcv.nxt + 1 == o.num + MOD
    ensures CW.RecentRun(c, es)
    ensures var t := Run(Unbounded, c, es); |Receiver.Delivered(t.rcv)| > |t.snd.written|
  {
    hide Wire, SC.Idle, SC.Flying, Sender.HandleWrite, Sender.Write, Run, Step, CW.RecentRun, Flat;
    SC.IdleSends(c.snd, [0], 0);
    SendsSteps(c, [0]);
    var f := c.(snd := SC.Sends(c.snd, [0], 0));
    var n := |c.snd.out|;
    TakesStale(f.rcv, Packet(c.snd.una, [0], false), o);
    ReceiverSteps(f, n);
    One(f, SegmentArrives(n));
    var fs := [(Sends(SR.WriteCall([0])), 0), (Sends(SR.WriteWakes), 0)];
    Then(c, fs, [(SegmentArrives(n), 0)]);
    es := fs + [(SegmentArrives(n), 0)];
  }

  lemma InitQuiet(iss: int)
    ensures var c := Init(Unbounded, iss, 2, 2, 2, 2, 0); Quiet(c, []) && c.rcv.nxt == iss && c.snd.out == []
  {
  }

  /** From the handshake, over a network that delivers nothing older than 2^31 - 1: a byte is
    * delivered that was never written. */
  lemma StaleRun(iss: int) returns (es: seq<(Event, int)>)
    ensures CW.RecentRun(Init(Unbounded, iss, 2, 2, 2, 2, 0), es)
    ensures var c := Run(Unbounded, Init(Unbounded, iss, 2, 2, 2, 2, 0), es);
      |Receiver.Delivered(c.rcv)| > |c.snd.written|
  {
    hide Wire, SC.Idle, SC.Flying, Init, Run, CW.RecentRun, Flat;
    var c0 := Init(Unbounded, iss, 2, 2, 2, 2, 0);
    InitQuiet(iss);
    var c1, e1 := Rounds(c0, [], HALF - 4);
    var o := Packet(iss, [0], false);
    var c2, e2 := OverrunRound(c1);
    var c3, e3 := OldRound(c2, o);
    var c4, e4 := Round(c3, [o], [0, 0]);
    var c5, e5 := Rounds(c4, [o], HALF - 2);
    var e6 := LastRound(c5, o);
    Then(c4, e5, e6);
    Then(c3, e4, e5 + e6);
    Then(c2, e3, e4 + (e5 + e6));
    Then(c1, e2, e3 + (e4 + (e5 + e6)));
    Then(c0, e1, e2 + (e3 + (e4 + (e5 + e6))));
    es := e1 + (e2 + (e3 + (e4 + (e5 + e6))));
  }

  /** The same on the program's uint32 numbers: while the receiver is overrun, 2^31 is no safe age
    * for data. */
  lemma StaleDelivered(iss: int) returns (es: seq<(Event, int)>)
    requires 0 <= iss < MOD
    ensures CW.RecentRun(Init(Unbounded, iss, 2, 2, 2, 2, 0), es)
    ensures !Faithful(Run(Uint32, Init(Uint32, iss, 2, 2, 2, 2, 0), es))
  {
    hide Wire, Init, Run, CW.RecentRun, Flat;
    es := StaleRun(iss);
    var c0 := Init(Unbounded, iss, 2, 2, 2, 2, 0);
    WC.InitWraps(iss, 2, 2, 2, 2, 0);
    WC.RunWraps(c0, es);
    TooMuch(Run(Unbounded, c0, es));
  }

  lemma TooMuch(c: State)
    requires |Receiver.Delivered(c.rcv)| > |c.snd.written|
    ensures !Faithful(WC.WrapState(c))
  {
    hide Flat;
  }
}
