/** How the receiver's window is overrun: an acknowledgement that arrives late, after a newer
  * one, gives the sender a window it no longer has; and a FIN asks for no window at all.
  */
module Overrun {
  import opened Packets
  import opened Seqnum
  import opened Connection
  import Sender
  import Receiver
  import Sack
  import SC = SenderCycle
  import SR = SenderRuns
  import CW = ConnectionWindow

  // ----- the sender

  /** At rest, a late acknowledgement whose window reaches past the receiver's edge from sndUna
    * lets any data that fits that window out, beyond the edge. */
  lemma LateAckOverruns(c: State, k: nat, d: seq<byte>)
    requires !c.dead && SC.Idle(c.snd) && k < |c.rcv.acks| && c.rcv.acks[k].number < c.snd.una
    requires CW.Recent(c, AckArrives(k, 0)) && c.snd.una - c.rcv.acks[k].number < HALF
    requires SC.Fits(c.snd.(wnd := Shl(c.rcv.acks[k].window, c.rcv.scale)), d) && c.snd.una + |d| > c.rcv.acc
    ensures var es := [(AckArrives(k, 0), 0), (Sends(SR.WriteCall(d)), 0), (Sends(SR.WriteWakes), 0)];
      var t := Run(Unbounded, c, es);
      && CW.RecentRun(c, es) && !t.dead && t.rcv == c.rcv
      && t.snd.out == c.snd.out + [Packet(c.snd.una, d, false)] && !CW.Inside(t, SegmentArrives(|c.snd.out|))
      && SC.Flying(t.snd, d) && SC.SameSetup(c.snd, t.snd) && t.snd.una == c.snd.una
      && t.snd.written == c.snd.written + d
  {
    hide Wire, SC.Idle, Sender.HandleAck, Sender.HandleWrite, Sender.Write, Shl;
    var a := c.rcv.acks[k];
    var w := Shl(a.window, c.rcv.scale);
    SC.IdleStale(c.snd, a.number, w, 0, 0);
    var s := Sender.HandleAck(Unbounded, c.snd, a.number, w, 0, 0);
    SC.IdleSends(s, d, 0);
    var b := c.(snd := s);
    assert Step(Unbounded, c, AckArrives(k, 0), 0) == b;
    SendsSteps(b, d);
    var es := [(Sends(SR.WriteCall(d)), 0), (Sends(SR.WriteWakes), 0)];
    assert [(AckArrives(k, 0), 0), (Sends(SR.WriteCall(d)), 0), (Sends(SR.WriteWakes), 0)][1..] == es;
  }

  lemma SendsSteps(c: State, d: seq<byte>)
    requires !c.dead
    ensures var es := [(Sends(SR.WriteCall(d)), 0), (Sends(SR.WriteWakes), 0)];
      Run(Unbounded, c, es) == c.(snd := SC.Sends(c.snd, d, 0)) && CW.RecentRun(c, es)
  {
    hide Wire, Step, Sender.HandleWrite, Sender.Write;
    var b := c.(snd := Sender.Write(Unbounded, c.snd, d));
    SendsStep(c, d);
    SendsStep(b, d);
    var es := [(Sends(SR.WriteCall(d)), 0), (Sends(SR.WriteWakes), 0)];
    assert es == [es[0]] + ([es[1]] + []);
    RunNext(c, es[0].0, [es[1]] + []);
    RunNext(b, es[1].0, []);
  }

  lemma SendsStep(c: State, d: seq<byte>)
    requires !c.dead
    ensures Step(Unbounded, c, Sends(SR.WriteCall(d)), 0) == c.(snd := Sender.Write(Unbounded, c.snd, d))
    ensures Step(Unbounded, c, Sends(SR.WriteWakes), 0) == c.(snd := Sender.HandleWrite(Unbounded, c.snd, 0))
  {
    hide Wire, Sender.HandleWrite, Sender.Write;
  }

  // ----- the receiver

  /** The next segment in order. */
  lemma Taken(r: Receiver.State, p: Packet)
    requires !r.closed && p.num == r.nxt && 1 <= |p.data| < HALF && !p.fin && r.nxt < r.acc < r.nxt + HALF
    ensures Receiver.Handle(Unbounded, r, p) == Receiver.Drain(Unbounded, Receiver.Consume(Unbounded, r, p, false))
    ensures Receiver.Consume(Unbounded, r, p, false) ==
      r.(ready := r.ready + [p.data], bufUsed := r.bufUsed + |p.data|, nxt := r.nxt + |p.data|,
         sack := Sack.Trim(r.sack, r.nxt + |p.data|))
  {
    hide Wire, Sack.Trim, Receiver.Drain;
    SizeExact(r.nxt, r.acc);
    InRangeExact(p.num, r.nxt, r.acc);
    InRangeExact(r.nxt, p.num, p.num + |p.data|);
    LessThanExact(p.num, r.nxt);
  }

  lemma TakesNext(r: Receiver.State, p: Packet)
    requires !r.closed && r.pending == [] && p.num == r.nxt && 1 <= |p.data| < HALF && !p.fin
    requires r.nxt < r.acc < r.nxt + HALF
    ensures Receiver.Handle(Unbounded, r, p) ==
      r.(ready := r.ready + [p.data], bufUsed := r.bufUsed + |p.data|, nxt := r.nxt + |p.data|,
         sack := Sack.Trim(r.sack, r.nxt + |p.data|))
  {
    hide Wire, Sack.Trim;
    Taken(r, p);
  }

  /** With no scaling an acknowledgement offers the whole free buffer. */
  lemma AnswersUnscaled(r: Receiver.State)
    requires r.scale == 0 && 0 <= r.bufUsed <= r.bufSize <= MAX_WINDOW
    requires r.nxt <= r.acc <= r.nxt + (r.bufSize - r.bufUsed)
    ensures var n := r.bufSize - r.bufUsed;
      Receiver.SendAck(Unbounded, r) == r.(acc := r.nxt + n, acks := r.acks + [Ack(r.nxt, n)])
  {
    hide Wire;
    LessThanExact(r.acc, r.nxt + (r.bufSize - r.bufUsed));
    SizeExact(r.nxt, r.nxt + (r.bufSize - r.bufUsed));
  }

  // ----- a run

  lemma RunNext(c: State, e: Event, es: seq<(Event, int)>)
    ensures Run(Unbounded, c, [(e, 0)] + es) == Run(Unbounded, Step(Unbounded, c, e, 0), es)
    ensures CW.RecentRun(c, [(e, 0)] + es) <==> CW.Recent(c, e) && CW.RecentRun(Step(Unbounded, c, e, 0), es)
  {
    hide Step, CW.Recent;
    assert ([(e, 0)] + es)[1..] == es;
  }

  /** A buffer of two bytes. One byte is sent, received and acknowledged; then the acknowledgement
    * that was sent before it arrives. */
  function Prelude(): seq<(Event, int)> {
    [(SendAck, 0), (Sends(SR.WriteCall([0])), 0), (Sends(SR.WriteWakes), 0), (SegmentArrives(0), 0), (SendAck, 0),
     (AckArrives(1, 0), 0)]
  }

  lemma PreludeRun(iss: int, es: seq<(Event, int)>) returns (c: State)
    ensures var c0 := Init(Unbounded, iss, 2, 2, 2, 2, 0);
      && Run(Unbounded, c0, Prelude() + es) == Run(Unbounded, c, es)
      && (CW.RecentRun(c, es) ==> CW.RecentRun(c0, Prelude() + es))
    ensures !c.dead && SC.Idle(c.snd) && c.snd.una == iss + 1 && c.snd.maxPayload == 2 && c.snd.bufSize == 2
    ensures c.snd.out == [Packet(iss, [0], false)] && c.rcv.acks == [Ack(iss, 2), Ack(iss + 1, 1)]
    ensures var r := c.rcv;
      && r.scale == 0 && !r.closed && r.pending == [] && r.nxt == iss + 1 && r.acc == iss + 2
      && r.bufUsed == 1 && r.bufSize == 2
  {
    hide Wire, SC.Idle, SC.Flying, Sender.HandleAck, Sender.HandleWrite, Sender.Write, Sender.Init, Receiver.Handle,
      Receiver.SendAck, Run, CW.RecentRun, Shl, Sack.Trim;
    var c0 := Init(Unbounded, iss, 2, 2, 2, 2, 0);
    SC.InitIdle(iss, 2, 2, 2);
    InitFits(iss);
    AnswersUnscaled(c0.rcv);
    var c1 := Step(Unbounded, c0, SendAck, 0);
    SC.IdleSends(c1.snd, [0], 0);
    var c2 := Step(Unbounded, c1, Sends(SR.WriteCall([0])), 0);
    var c3 := Step(Unbounded, c2, Sends(SR.WriteWakes), 0);
    TakesNext(c3.rcv, Packet(iss, [0], false));
    var c4 := Step(Unbounded, c3, SegmentArrives(0), 0);
    AnswersUnscaled(c4.rcv);
    var c5 := Step(Unbounded, c4, SendAck, 0);
    NotScaled(1);
    SC.FlyingAcked(c5.snd, [0], 1, 0, 0);
    c := Step(Unbounded, c5, AckArrives(1, 0), 0);
    PreludeSteps(c0, es);
  }

  lemma NotScaled(x: nat)
    ensures Shl(x, 0) == x
  {
  }

  lemma InitFits(iss: int)
    ensures var s := Sender.Init(iss, 2, 2, 2, Unbounded);
      s.una == iss && s.wnd == 2 && s.maxPayload == 2 && s.bufSize == 2 && s.out == []
  {
  }

  lemma PreludeSteps(c0: State, es: seq<(Event, int)>)
    ensures var c1 := Step(Unbounded, c0, SendAck, 0);
      var c2 := Step(Unbounded, c1, Sends(SR.WriteCall([0])), 0);
      var c3 := Step(Unbounded, c2, Sends(SR.WriteWakes), 0);
      var c4 := Step(Unbounded, c3, SegmentArrives(0), 0);
      var c5 := Step(Unbounded, c4, SendAck, 0);
      var c := Step(Unbounded, c5, AckArrives(1, 0), 0);
      && Run(Unbounded, c0, Prelude() + es) == Run(Unbounded, c, es)
      && (CW.Recent(c3, SegmentArrives(0)) && CW.Recent(c5, AckArrives(1, 0)) && CW.RecentRun(c, es) ==>
            CW.RecentRun(c0, Prelude() + es))
  {
    hide Step, Run, CW.RecentRun;
    var p := Prelude();
    var c1 := Step(Unbounded, c0, SendAck, 0);
    var c2 := Step(Unbounded, c1, p[1].0, 0);
    var c3 := Step(Unbounded, c2, p[2].0, 0);
    var c4 := Step(Unbounded, c3, p[3].0, 0);
    var c5 := Step(Unbounded, c4, p[4].0, 0);
    forall i | 0 <= i < 6
      ensures p[i..] + es == [(p[i].0, 0)] + (p[i + 1..] + es)
    {
    }
    assert p[0..] + es == p + es && p[6..] + es == es;
    RunNext(c0, p[0].0, p[1..] + es);
    RunNext(c1, p[1].0, p[2..] + es);
    RunNext(c2, p[2].0, p[3..] + es);
    RunNext(c3, p[3].0, p[4..] + es);
    RunNext(c4, p[4].0, p[5..] + es);
    RunNext(c5, p[5].0, p[6..] + es);
  }

  /** From the handshake, over a network that delivers nothing older than two numbers: the late
    * acknowledgement lets two bytes out where one fits, and the receiver takes both, past its
    * right edge and past its buffer. */
  lemma WindowOverrun(iss: int) returns (es: seq<(Event, int)>)
    ensures var c0 := Init(Unbounded, iss, 2, 2, 2, 2, 0); var c := Run(Unbounded, c0, es);
      CW.RecentRun(c0, es) && c.rcv.nxt > c.rcv.acc && c.rcv.bufUsed > c.rcv.bufSize
  {
    hide Wire, SC.Idle, Run, CW.RecentRun, Step, Shl;
    var late := [(AckArrives(0, 0), 0), (Sends(SR.WriteCall([0, 0])), 0), (Sends(SR.WriteWakes), 0)];
    var all := late + [(SegmentArrives(1), 0)];
    var c := PreludeRun(iss, all);
    es := Prelude() + all;
    NotScaled(2);
    LateAckOverruns(c, 0, [0, 0]);
    var t := Run(Unbounded, c, late);
    LateRun(c, late);
    TakesNext(t.rcv, t.snd.out[1]);
    Arrives(t);
  }

  lemma Arrives(c: State)
    requires |c.snd.out| == 2
    ensures Step(Unbounded, c, SegmentArrives(1), 0) == c.(rcv := Receiver.Handle(Unbounded, c.rcv, c.snd.out[1]))
  {
    hide Receiver.Handle;
  }

  lemma LateRun(c: State, late: seq<(Event, int)>)
    requires late == [(AckArrives(0, 0), 0), (Sends(SR.WriteCall([0, 0])), 0), (Sends(SR.WriteWakes), 0)]
    ensures var t := Run(Unbounded, c, late); var all := late + [(SegmentArrives(1), 0)];
      && Run(Unbounded, c, all) == Step(Unbounded, t, SegmentArrives(1), 0)
      && (CW.Recent(c, AckArrives(0, 0)) && CW.Recent(t, SegmentArrives(1)) ==> CW.RecentRun(c, all))
  {
    hide Step;
    var all := late + [(SegmentArrives(1), 0)];
    forall i | 0 <= i < 3
      ensures late[i..] == [late[i]] + late[i + 1..] && all[i..] == [all[i]] + all[i + 1..] && all[i] == late[i]
    {
    }
    var a := Step(Unbounded, c, late[0].0, 0);
    var b := Step(Unbounded, a, late[1].0, 0);
    var t := Step(Unbounded, b, late[2].0, 0);
    assert late[0..] == late && all[0..] == all && late[3..] == [] && all[3..] == [(SegmentArrives(1), 0)] + [];
    RunNext(c, late[0].0, late[1..]);
    RunNext(a, late[1].0, late[2..]);
    RunNext(b, late[2].0, late[3..]);
    RunNext(c, all[0].0, all[1..]);
    RunNext(a, all[1].0, all[2..]);
    RunNext(b, all[2].0, all[3..]);
    RunNext(t, SegmentArrives(1), []);
  }
}
