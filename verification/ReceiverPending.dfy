/** What pendingBufUsed counts: at least the numbers that are queued, at most a segment more than
  * its limit, whatever arrives. So the uint32 never wraps, and queueing always stops in time.
  */
module ReceiverPending {
  import opened Packets
  import opened Seqnum
  import opened Receiver
  import Heap
  import Sack
  import SP = SenderProofs
  import RP = ReceiverProofs
  import WR = WrapReceiver
  import WC = WrapConnection
  import C = Connection
  import OV = Overrun

  const MAX_SEGMENT: int := 0xffff     // no IP packet carries more

  function Weight(ps: seq<Packet>): nat {
    if |ps| == 0 then 0 else ps[0].LogicalLen() + Weight(ps[1..])
  }

  lemma {:induction false} WeightAppend(a: seq<Packet>, b: seq<Packet>)
    ensures Weight(a + b) == Weight(a) + Weight(b)
    decreases |a|
  {
    if |a| == 0 {
      assert a + b == b;
    } else {
      assert (a + b)[1..] == a[1..] + b;
      WeightAppend(a[1..], b);
    }
  }

  lemma WeightOne(p: Packet)
    ensures Weight([p]) == p.LogicalLen()
  {
    assert [p][1..] == [];
  }

  lemma WeightAt(ps: seq<Packet>, i: nat)
    requires i < |ps|
    ensures Weight(ps) == ps[i].LogicalLen() + Weight(ps[..i] + ps[i + 1..])
    ensures multiset(ps) == multiset{ps[i]} + multiset(ps[..i] + ps[i + 1..])
  {
    hide Weight;
    WeightJoin(ps[..i], ps[i], ps[i + 1..]);
    assert ps == ps[..i] + [ps[i]] + ps[i + 1..];
  }

  lemma WeightJoin(a: seq<Packet>, p: Packet, b: seq<Packet>)
    ensures Weight(a + [p] + b) == p.LogicalLen() + Weight(a + b)
  {
    hide Weight;
    WeightAppend(a + [p], b);
    WeightAppend(a, [p]);
    WeightAppend(a, b);
    WeightOne(p);
  }

  /** The order in the heap does not matter. */
  lemma {:induction false} SameWeight(a: seq<Packet>, b: seq<Packet>)
    requires multiset(a) == multiset(b)
    ensures Weight(a) == Weight(b)
    decreases |a|
  {
    hide Weight;
    if |a| == 0 {
      assert |multiset(b)| == |b|;
    } else {
      assert a[0] in multiset(b);
      var i :| 0 <= i < |b| && b[i] == a[0];
      WeightAt(a, 0);
      WeightAt(b, i);
      var c, d := a[..0] + a[1..], b[..i] + b[i + 1..];
      assert multiset(c) == multiset(a) - multiset{a[0]} && multiset(d) == multiset(b) - multiset{a[0]};
      SameWeight(c, d);
    }
  }

  /** The invariant. */
  ghost predicate Held(r: State) {
    Weight(r.pending) <= r.pendingUsed < r.pendingSize + MAX_SEGMENT + 1 && r.pendingSize <= RP.MAX_BUFFER
  }

  /** What is counted beyond what is queued. */
  ghost function Leak(r: State): int {
    r.pendingUsed - Weight(r.pending)
  }

  /** A field that fits a uint32 is not changed by taking it modulo 2^32. */
  ghost predicate Counted(r: State) {
    0 <= r.pendingUsed && Wire(r.pendingUsed) == r.pendingUsed
  }

  lemma HeldIsCounted(r: State)
    requires Held(r)
    ensures Counted(r)
  {
  }

  /** Queueing: the uint32 addition does not wrap. */
  lemma StoreHeld(r: State, p: Packet)
    requires Held(r) && |p.data| <= MAX_SEGMENT
    ensures Held(Store(r, p)) && Leak(Store(r, p)) == Leak(r)
    ensures r.pendingUsed < r.pendingSize ==> Store(r, p).pendingUsed == Add(Uint32, r.pendingUsed, p.LogicalLen())
  {
    hide Weight, Heap.Push, Less;
    var ps := Heap.Push(Less, r.pending, p);
    assert multiset(r.pending + [p]) == multiset(r.pending) + multiset{p};
    SameWeight(ps, r.pending + [p]);
    WeightAppend(r.pending, [p]);
    WeightOne(p);
  }

  /** heap.Pop takes off what the root, as it is then, counts, and the uint32 subtraction does not
    * wrap. */
  lemma PopHeld(r: State)
    requires Held(r) && |r.pending| > 0
    ensures Held(PopRoot(r)) && Leak(PopRoot(r)) == Leak(r)
    ensures PopRoot(r).pendingUsed == Wire(r.pendingUsed - r.pending[0].LogicalLen())
  {
    hide Weight, Heap.Rest, Less;
    var ps := Heap.Rest(Less, r.pending);
    Heap.PopContents(Less, r.pending);
    assert multiset(ps + [r.pending[0]]) == multiset(ps) + multiset{r.pending[0]};
    SameWeight(ps + [r.pending[0]], r.pending);
    WeightAppend(ps, [r.pending[0]]);
    WeightOne(r.pending[0]);
  }

  lemma SendAckPending(w: Width, r: State)
    ensures var o := SendAck(w, r);
      o.pending == r.pending && o.pendingUsed == r.pendingUsed && o.pendingSize == r.pendingSize
  {
    hide Wire;
  }

  lemma ConsumePending(w: Width, r: State, p: Packet, queued: bool)
    ensures var o := Consume(w, r, p, queued);
      && o.pendingUsed == r.pendingUsed && o.pendingSize == r.pendingSize
      && o.pending == if !p.fin then r.pending else if queued && |r.pending| > 0 then r.pending[..1] else []
  {
    hide Wire, SendAck, Fresh;
    var n := Advance(w, r, p, Fresh(w, r, p));
    SendAckPending(w, n.(nxt := Add(w, n.nxt, 1)));
  }

  lemma FreshShorter(w: Width, r: State, p: Packet)
    ensures Fresh(w, r, p).LogicalLen() <= p.LogicalLen()
  {
    hide Wire;
  }

  lemma TrimWeight(ps: seq<Packet>, t: Packet)
    requires |ps| > 0
    ensures Weight(ps[0 := t]) == Weight(ps) - ps[0].LogicalLen() + t.LogicalLen()
    ensures Weight(ps[..1]) == ps[0].LogicalLen() <= Weight(ps) && Weight([]) == 0
  {
    assert ps[0 := t][1..] == ps[1..];
    assert ps[..1] == [ps[0]];
    WeightOne(ps[0]);
  }

  /** One turn of the loop over the queue. The root is trimmed in place before its length is taken
    * off, so the bytes trimmed stay counted for good. */
  lemma DrainOneHeld(w: Width, r: State)
    requires Held(r) && |r.pending| > 0
    ensures var o := DrainOne(w, r); var p := r.pending[0];
      && Held(o) && o.pendingSize == r.pendingSize && Leak(o) >= Leak(r)
      && (Passed(r, p) ==> Leak(o) == Leak(r))
      && (!Passed(r, p) && !p.fin ==> Leak(o) == Leak(r) + p.LogicalLen() - Fresh(w, r, p).LogicalLen())
  {
    hide Wire, Weight, Fresh, Consume, PopRoot, Passed;
    var p := r.pending[0];
    if Passed(r, p) {
      PopHeld(r);
      PopSize(r);
    } else {
      var t := Fresh(w, r, p);
      var q := r.(pending := r.pending[0 := t]);
      FreshShorter(w, r, p);
      TrimWeight(r.pending, t);
      TrimWeight(q.pending, t);
      ConsumePending(w, q, p, true);
      PopHeld(Consume(w, q, p, true));
      PopSize(Consume(w, q, p, true));
    }
  }

  lemma PopSize(r: State)
    requires |r.pending| > 0
    ensures PopRoot(r).pendingSize == r.pendingSize && |PopRoot(r).pending| == |r.pending| - 1
  {
  }

  lemma {:induction false} DrainHeld(w: Width, r: State)
    requires Held(r)
    ensures Held(Drain(w, r)) && Drain(w, r).pendingSize == r.pendingSize && Leak(Drain(w, r)) >= Leak(r)
    decreases |r.pending|
  {
    hide Wire, Held, Passed, Consumable, DrainOne, Weight;
    if !r.closed && |r.pending| > 0 && (Passed(r, r.pending[0]) || Consumable(r, r.pending[0])) {
      DrainOneHeld(w, r);
      DrainShrinks(w, r);
      DrainHeld(w, DrainOne(w, r));
    }
  }

  lemma DrainShrinks(w: Width, r: State)
    requires |r.pending| > 0
    ensures |DrainOne(w, r).pending| < |r.pending|
  {
    hide Wire, Consume, Fresh, PopRoot, Passed;
    var q := r.(pending := r.pending[0 := Fresh(w, r, r.pending[0])]);
    ConsumePending(w, q, r.pending[0], true);
    PopSize(r);
    PopSize(Consume(w, q, r.pending[0], true));
  }

  /** handleRcvdSegment, whatever arrives. */
  lemma HandleHeld(w: Width, r: State, p: Packet)
    requires Held(r) && |p.data| <= MAX_SEGMENT
    ensures var o := Handle(w, r, p); Held(o) && o.pendingSize == r.pendingSize && Leak(o) >= Leak(r)
  {
    hide Wire, Acceptable, Consumable, Consume, Drain, SendAck, Store, Sack.Update, Weight;
    SendAckPending(w, r);
    ConsumePending(w, r, p, false);
    assert Weight([]) == 0 by { WeightNone(); }
    if !r.closed && Acceptable(r, p.num, |p.data|) {
      if Consumable(r, p) {
        DrainHeld(w, Consume(w, r, p, false));
      } else {
        StoreHeld(r, p);
        StoreSize(r, p);
        SendAckPending(w, Store(r, p).(sack := Sack.Update(r.sack, p.num, Add(w, p.num, |p.data|), r.nxt)));
      }
    }
  }

  lemma WeightNone()
    ensures Weight([]) == 0
  {
  }

  lemma StoreSize(r: State, p: Packet)
    ensures Store(r, p).pendingSize == r.pendingSize
  {
  }

  // ----- runs

  datatype Event = Arrives(p: Packet) | Answers | Reads

  function Step(w: Width, r: State, e: Event): State {
    match e
    case Arrives(p) => Handle(w, r, p)
    case Answers => SendAck(w, r)
    case Reads => Read(r)
  }

  function Run(w: Width, r: State, es: seq<Event>): State
    decreases |es|
  {
    if |es| == 0 then r else Run(w, Step(w, r, es[0]), es[1..])
  }

  lemma StepHeld(w: Width, r: State, e: Event)
    requires Held(r) && (e.Arrives? ==> |e.p.data| <= MAX_SEGMENT)
    ensures var o := Step(w, r, e); Held(o) && o.pendingSize == r.pendingSize && Leak(o) >= Leak(r)
  {
    hide Wire, Handle, SendAck, Weight;
    match e {
      case Arrives(p) => HandleHeld(w, r, p);
      case Answers => SendAckPending(w, r);
      case Reads =>
    }
  }

  /** Over every run of the receiver against any peer, at either width: the counter covers what is
    * queued, exceeds its limit by less than a segment, and so fits its uint32. */
  lemma {:induction false} RunHeld(w: Width, r: State, es: seq<Event>)
    requires Held(r) && forall i :: 0 <= i < |es| && es[i].Arrives? ==> |es[i].p.data| <= MAX_SEGMENT
    ensures var o := Run(w, r, es);
      && Weight(o.pending) <= o.pendingUsed < r.pendingSize + MAX_SEGMENT + 1 <= MOD && Counted(o)
      && o.pendingSize == r.pendingSize && Leak(o) >= Leak(r)
    decreases |es|
  {
    hide Wire, Held, Step, Weight;
    if |es| > 0 {
      StepHeld(w, r, es[0]);
      RunHeld(w, Step(w, r, es[0]), es[1..]);
    } else {
      HeldIsCounted(r);
      HeldMeans(r);
    }
  }

  lemma HeldMeans(r: State)
    requires Held(r)
    ensures Weight(r.pending) <= r.pendingUsed < r.pendingSize + MAX_SEGMENT + 1 <= MOD
  {
  }

  /** The leak is for good: once it fills the limit, no segment is ever queued again. */
  lemma NothingQueuedAgain(w: Width, r: State, es: seq<Event>, p: Packet)
    requires Held(r) && Leak(r) >= r.pendingSize
    requires forall i :: 0 <= i < |es| && es[i].Arrives? ==> |es[i].p.data| <= MAX_SEGMENT
    ensures Store(Run(w, r, es), p) == Run(w, r, es)
  {
    hide Weight, Run;
    RunHeld(w, r, es);
  }

  // ----- a leak

  /** Everything that arrived was read and acknowledged; at least four bytes fit. */
  ghost predicate Quiet(r: State) {
    && !r.closed && r.pending == [] && r.ready == [] && r.bufUsed == 0 && r.scale == 0
    && 4 <= r.bufSize <= MAX_WINDOW && r.acc == r.nxt + r.bufSize
  }

  /** Two overlapping pieces of two bytes, the later one first; then both are read. */
  function Overlapping(nxt: int): seq<Event> {
    [Arrives(Packet(nxt + 1, [0, 0], false)), Arrives(Packet(nxt, [0, 0], false)), Reads, Reads, Answers]
  }

  /** What waits and overlaps the next bytes is cut and taken with them. */
  lemma TakesBoth(r: State)
    requires Quiet(r) && r.pendingUsed < r.pendingSize
    ensures var a := Handle(Unbounded, r, Packet(r.nxt + 1, [0, 0], false));
      var b := Handle(Unbounded, a, Packet(r.nxt, [0, 0], false));
      b == r.(ready := [[0, 0], [0]], bufUsed := 3, nxt := r.nxt + 3, pendingUsed := r.pendingUsed + 1,
              sack := b.sack, acks := b.acks)
  {
    hide Wire, Sack.Trim, Sack.Update, Drain, Consume, SendAck;
    var p, q := Packet(r.nxt + 1, [0, 0], false), Packet(r.nxt, [0, 0], false);
    QueuesNext(r, p);
    var a := Handle(Unbounded, r, p);
    OV.Taken(a, q);
    DrainsCut(Consume(Unbounded, a, q, false), p);
  }

  lemma QueuesNext(r: State, p: Packet)
    requires Quiet(r) && r.pendingUsed < r.pendingSize && p == Packet(r.nxt + 1, [0, 0], false)
    ensures var o := Handle(Unbounded, r, p);
      o == r.(pending := [p], pendingUsed := r.pendingUsed + 2, sack := o.sack, acks := o.acks)
  {
    hide Wire, Sack.Update, SendAck;
    SizeExact(r.nxt, r.acc);
    InRangeExact(p.num, r.nxt, r.acc);
    assert Size(p.num, r.nxt) == MOD - 1 by { BackOne(r.nxt); }
    SizeExact(p.num, p.num + 2);
    OV.AnswersUnscaled(Store(r, p).(sack := Sack.Update(r.sack, p.num, p.num + 2, r.nxt)));
  }

  lemma BackOne(v: int)
    ensures Size(v + 1, v) == MOD - 1
  {
  }

  lemma DrainsCut(r: State, p: Packet)
    requires !r.closed && r.pending == [p] && p.num == r.nxt - 1 && p.data == [0, 0] && !p.fin
    ensures var o := Drain(Unbounded, r);
      o == r.(pending := [], pendingUsed := r.pendingUsed - 1, ready := r.ready + [[0]], bufUsed := r.bufUsed + 1,
              nxt := r.nxt + 1, sack := o.sack)
  {
    hide Wire, Sack.Trim;
    LessThanExact(p.num + 2 - 1, r.nxt);
    LessThanExact(p.num, r.nxt);
    InRangeExact(r.nxt, p.num, p.num + 2);
    SizeExact(p.num, r.nxt);
    assert Fresh(Unbounded, r, p) == Packet(r.nxt, [0], false);
    assert DrainOne(Unbounded, r).pending == [];
  }

  lemma Leaks(r: State)
    requires Quiet(r) && r.pendingUsed < r.pendingSize
    ensures var o := Run(Unbounded, r, Overlapping(r.nxt));
      Quiet(o) && o.nxt == r.nxt + 3 && o.pendingUsed == r.pendingUsed + 1 && o.pendingSize == r.pendingSize
  {
    hide Handle, SendAck;
    TakesBoth(r);
    var a := Handle(Unbounded, r, Packet(r.nxt + 1, [0, 0], false));
    var b := Handle(Unbounded, a, Packet(r.nxt, [0, 0], false));
    var c := Read(Read(b));
    OV.AnswersUnscaled(c);
    FiveSteps(r, Overlapping(r.nxt));
  }

  lemma FiveSteps(r: State, es: seq<Event>)
    requires |es| == 5
    ensures Run(Unbounded, r, es) == Step(Unbounded, Step(Unbounded, Step(Unbounded, Step(Unbounded,
      Step(Unbounded, r, es[0]), es[1]), es[2]), es[3]), es[4])
  {
    hide Step;
    forall i | 0 <= i < 5
      ensures es[i..][0] == es[i] && es[i..][1..] == es[i + 1..]
    {
    }
    var a := Step(Unbounded, r, es[0]);
    var b := Step(Unbounded, a, es[1]);
    var c := Step(Unbounded, b, es[2]);
    var d := Step(Unbounded, c, es[3]);
    assert Run(Unbounded, d, es[4..]) == Step(Unbounded, d, es[4]);
    assert Run(Unbounded, c, es[3..]) == Run(Unbounded, d, es[4..]);
    assert Run(Unbounded, b, es[2..]) == Run(Unbounded, c, es[3..]);
    assert Run(Unbounded, a, es[1..]) == Run(Unbounded, b, es[2..]);
  }

  lemma {:induction false} RunAppend(r: State, es: seq<Event>, fs: seq<Event>)
    ensures Run(Unbounded, r, es + fs) == Run(Unbounded, Run(Unbounded, r, es), fs)
    decreases |es|
  {
    hide Step;
    if |es| == 0 {
      assert es + fs == fs;
    } else {
      assert (es + fs)[1..] == es[1..] + fs;
      RunAppend(Step(Unbounded, r, es[0]), es[1..], fs);
    }
  }

  /** A peer that sends overlapping pieces exhausts the queue's limit while nothing is queued: from
    * then on, by NothingQueuedAgain, no early segment is kept. */
  lemma {:induction false} LeaksAll(r: State) returns (es: seq<Event>)
    requires Quiet(r) && r.pendingUsed <= r.pendingSize
    ensures var o := Run(Unbounded, r, es); Quiet(o) && o.pendingUsed == r.pendingSize == o.pendingSize
    ensures forall i :: 0 <= i < |es| && es[i].Arrives? ==> |es[i].p.data| <= MAX_SEGMENT
    decreases r.pendingSize - r.pendingUsed
  {
    hide Quiet, Run, Step;
    es := [];
    if r.pendingUsed < r.pendingSize {
      Leaks(r);
      var fs := LeaksAll(Run(Unbounded, r, Overlapping(r.nxt)));
      RunAppend(r, Overlapping(r.nxt), fs);
      es := Overlapping(r.nxt) + fs;
    } else {
      NoneAtAll(r);
    }
  }

  lemma NoneAtAll(r: State)
    ensures Run(Unbounded, r, []) == r
  {
  }

  // ----- in a connection

  lemma SentIsShort(base: int, c: C.State, m: nat, k: nat)
    requires C.Inv(base, c, m) && k < |c.snd.out|
    ensures |c.snd.out[k].data| <= MAX_SEGMENT
  {
    hide SP.Core, SP.Exact, RP.Inv;
    assert SP.Slice(base, c.snd, c.snd.out[k]);
  }

  lemma {:induction false} ConnectionHeld(base: int, c: C.State, m: nat, es: seq<(C.Event, int)>)
    requires C.Inv(base, c, m) && C.FreshRun(c, es) && Held(c.rcv)
    ensures var d := C.Run(Unbounded, c, es); Held(d.rcv) && d.rcv.pendingSize == c.rcv.pendingSize
    decreases |es|
  {
    hide Wire, C.Inv, C.Fresh, C.Step, Held;
    if |es| > 0 {
      var (e, now) := es[0];
      var n := C.StepKeeps(base, c, m, e, now);
      ConnectionStepHeld(base, c, m, e, now);
      ConnectionHeld(base, C.Step(Unbounded, c, e, now), n, es[1..]);
    }
  }

  lemma ConnectionStepHeld(base: int, c: C.State, m: nat, e: C.Event, now: int)
    requires C.Inv(base, c, m) && Held(c.rcv)
    ensures var d := C.Step(Unbounded, c, e, now); Held(d.rcv) && d.rcv.pendingSize == c.rcv.pendingSize
  {
    hide Wire, C.Inv, C.SR.Step, Handle, SendAck, Read, Held;
    match e {
      case SegmentArrives(k) =>
        if k < |c.snd.out| {
          SentIsShort(base, c, m, k);
          StepHeld(Unbounded, c.rcv, Arrives(c.snd.out[k]));
        }
      case SendAck => StepHeld(Unbounded, c.rcv, Answers);
      case Read => StepHeld(Unbounded, c.rcv, Reads);
      case _ =>
    }
  }

  lemma {:induction false} WeightWraps(ps: seq<Packet>)
    ensures Weight(WR.Map(WR.WrapPacket, ps)) == Weight(ps)
    decreases |ps|
  {
    hide Wire;
    if |ps| > 0 {
      WR.MapSlice(WR.WrapPacket, ps, 1, |ps|);
      WeightWraps(ps[1..]);
    }
  }

  /** In every run of a connection on uint32 numbers. */
  lemma PendingFits(iss: int, wnd: int, mss: int, sndBuf: int, rcvBuf: nat, scale: nat, es: seq<(C.Event, int)>)
    requires 0 <= iss < MOD
    requires 0 <= wnd <= SP.MAX_WND && 1 <= mss <= SP.MAX_SEGMENT && rcvBuf <= RP.MAX_BUFFER && scale <= MAX_SCALE
    requires C.FreshRun(C.Init(Unbounded, iss, wnd, mss, sndBuf, rcvBuf, scale), es)
    ensures var r := C.Run(Uint32, C.Init(Uint32, iss, wnd, mss, sndBuf, rcvBuf, scale), es).rcv;
      Weight(r.pending) <= r.pendingUsed < rcvBuf + MAX_SEGMENT + 1 <= MOD && Counted(r)
  {
    hide Wire, C.Run, C.Init, C.Inv, Weight;
    var c0 := C.Init(Unbounded, iss, wnd, mss, sndBuf, rcvBuf, scale);
    C.InitKeeps(iss, wnd, mss, sndBuf, rcvBuf, scale);
    InitHeld(iss, wnd, mss, sndBuf, rcvBuf, scale);
    ConnectionHeld(iss, c0, 0, es);
    WC.InitWraps(iss, wnd, mss, sndBuf, rcvBuf, scale);
    WC.RunWraps(c0, es);
    var u := C.Run(Unbounded, c0, es);
    WeightWraps(u.rcv.pending);
    HeldIsCounted(u.rcv);
    assert WC.WrapState(u).rcv.pendingUsed == u.rcv.pendingUsed;
    assert WC.WrapState(u).rcv.pending == WR.Map(WR.WrapPacket, u.rcv.pending);
  }

  lemma InitHeld(iss: int, wnd: int, mss: int, sndBuf: int, rcvBuf: nat, scale: nat)
    requires rcvBuf <= RP.MAX_BUFFER
    ensures var r := C.Init(Unbounded, iss, wnd, mss, sndBuf, rcvBuf, scale).rcv; Held(r) && r.pendingSize == rcvBuf
  {
  }
}
