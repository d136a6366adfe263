/** The receive window over whole runs of a connection. */
module ConnectionWindow {
  import opened Packets
  import opened Seqnum
  import opened Connection
  import Sender
  import Receiver
  import SP = SenderProofs
  import SR = SenderRuns
  import RP = ReceiverProofs
  import RW = ReceiverWindow
  import WC = WrapConnection
  import WR = WrapReceiver
  import WS = WrapSender
  import SW = SenderWindow

  /** Data that arrives ends inside the receiver's window, a FIN at most one past it. */
  ghost predicate Inside(c: State, e: Event) {
    e.SegmentArrives? && e.k < |c.snd.out| && c.snd.out[e.k].LogicalLen() > 0 ==>
      RW.EndsInside(c.rcv, c.snd.out[e.k])
  }

  ghost predicate InsideRun(c: State, es: seq<(Event, int)>)
    decreases |es|
  {
    |es| == 0 || (Inside(c, es[0].0) && InsideRun(Step(Unbounded, c, es[0].0, es[0].1), es[1..]))
  }

  lemma ReceiverStepWindow(base: int, c: State, m: nat, e: Event, seen: set<Packet>) returns (seen': set<Packet>)
    requires Inv(base, c, m) && Fresh(c, e) && Inside(c, e) && RW.Window(c.rcv, seen)
    ensures RW.Window(ReceiverStep(Unbounded, c, e).rcv, seen') && c.rcv.acc <= ReceiverStep(Unbounded, c, e).rcv.acc
    ensures seen' == if e.SegmentArrives? && e.k < |c.snd.out| then seen + {c.snd.out[e.k]} else seen
  {
    hide Wire, SP.Core, SP.Placed, RP.Core, RP.Genuine, Receiver.Handle, Receiver.Read, Receiver.SendAck, RW.Window;
    var ctx := Ctx(base, c.snd);
    seen' := seen;
    match e {
      case SegmentArrives(k) =>
        if k < |c.snd.out| {
          SentGenuine(base, c.snd, m, c.snd.out[k]);
          YoungEnough(c.rcv, c.snd.out[k], seen);
          RP.HandleKeeps(ctx, c.rcv, c.snd.out[k]);
          RW.HandleWindow(ctx, c.rcv, c.snd.out[k], seen);
          seen' := seen + {c.snd.out[k]};
        }
      case SendAck =>
        RP.SendAckRests(ctx, c.rcv);
        RW.WindowEdge(c.rcv, seen);
        RW.SendAckWindow(ctx, c.rcv, seen);
      case Read =>
        RP.ReadKeeps(ctx, c.rcv);
        RW.ReadWindow(c.rcv, seen);
      case _ =>
    }
  }

  lemma YoungEnough(r: Receiver.State, p: Packet, seen: set<Packet>)
    requires RP.Young(r, p) && RW.Window(r, seen)
    ensures r.nxt - p.num < HALF
  {
  }

  lemma StepWindow(base: int, c: State, m: nat, e: Event, now: int, seen: set<Packet>) returns (seen': set<Packet>)
    requires Inv(base, c, m) && Fresh(c, e) && Inside(c, e) && RW.Window(c.rcv, seen)
    ensures RW.Window(Step(Unbounded, c, e, now).rcv, seen') && c.rcv.acc <= Step(Unbounded, c, e, now).rcv.acc
    ensures forall p :: p in seen' ==> p in seen || p in c.snd.out
  {
    hide Wire, Inv, Fresh, Inside, ReceiverStep, SR.Step, RW.Window;
    if SenderEvent(c, e).None? {
      seen' := ReceiverStepWindow(base, c, m, e, seen);
    } else {
      seen' := seen;
    }
  }

  lemma {:induction false} RunWindow(base: int, c: State, m: nat, es: seq<(Event, int)>, seen: set<Packet>)
    returns (seen': set<Packet>)
    requires Inv(base, c, m) && FreshRun(c, es) && InsideRun(c, es) && RW.Window(c.rcv, seen)
    ensures RW.Window(Run(Unbounded, c, es).rcv, seen') && c.rcv.acc <= Run(Unbounded, c, es).rcv.acc
    ensures exists m' :: Inv(base, Run(Unbounded, c, es), m')
    decreases |es|
  {
    hide Wire, Inv, Fresh, Inside, Step, RW.Window;
    if |es| == 0 {
      seen' := seen;
      assert Inv(base, Run(Unbounded, c, es), m);
    } else {
      var (e, now) := es[0];
      var n := StepKeeps(base, c, m, e, now);
      var more := StepWindow(base, c, m, e, now, seen);
      seen' := RunWindow(base, Step(Unbounded, c, e, now), n, es[1..], more);
    }
  }

  lemma InitWindow(base: int, wnd: int, mss: int, sndBuf: int, rcvBuf: nat, scale: nat)
    ensures RW.Window(Init(Unbounded, base, wnd, mss, sndBuf, rcvBuf, scale).rcv, {})
  {
  }

  /** Window conservation, for the program's uint32 numbers: as long as what arrives ends inside
    * the window, the bytes the application has not read and the window still open fit the
    * receive buffer together; and no acknowledgement ever sent promised a byte beyond the right
    * edge of the window, which never moves to the left. */
  lemma WindowConservation(iss: int, wnd: int, mss: int, sndBuf: int, rcvBuf: nat, scale: nat, es: seq<(Event, int)>)
    requires 0 <= iss < MOD
    requires 0 <= wnd <= SP.MAX_WND && 1 <= mss <= SP.MAX_SEGMENT && rcvBuf <= RP.MAX_BUFFER && scale <= MAX_SCALE
    requires var c0 := Init(Unbounded, iss, wnd, mss, sndBuf, rcvBuf, scale); FreshRun(c0, es) && InsideRun(c0, es)
    ensures var r := Run(Uint32, Init(Uint32, iss, wnd, mss, sndBuf, rcvBuf, scale), es).rcv;
      && r.bufUsed + Size(r.nxt, r.acc) <= r.bufSize && r.bufUsed == |Flat(r.ready)|
    ensures var u := Run(Unbounded, Init(Unbounded, iss, wnd, mss, sndBuf, rcvBuf, scale), es).rcv;
      && iss + rcvBuf <= u.acc
      && forall a :: a in u.acks ==> a.number + Shl(a.window, u.scale) <= u.acc
  {
    hide Wire, Run, Init, Inv, Sender.Init, WS.WrapSnd, WR.WrapRcv, Flat, Shl, RW.Window;
    var c0 := Init(Unbounded, iss, wnd, mss, sndBuf, rcvBuf, scale);
    InitKeeps(iss, wnd, mss, sndBuf, rcvBuf, scale);
    InitWindow(iss, wnd, mss, sndBuf, rcvBuf, scale);
    InitEdge(iss, wnd, mss, sndBuf, rcvBuf, scale);
    var seen := RunWindow(iss, c0, 0, es, {});
    WC.InitWraps(iss, wnd, mss, sndBuf, rcvBuf, scale);
    WC.RunWraps(c0, es);
    var m :| Inv(iss, Run(Unbounded, c0, es), m);
    WindowOnTheWire(iss, Run(Unbounded, c0, es), m, seen);
  }

  lemma InitEdge(base: int, wnd: int, mss: int, sndBuf: int, rcvBuf: nat, scale: nat)
    ensures Init(Unbounded, base, wnd, mss, sndBuf, rcvBuf, scale).rcv.acc == base + rcvBuf
  {
  }

  lemma WindowOnTheWire(base: int, c: State, m: nat, seen: set<Packet>)
    requires Inv(base, c, m) && RW.Window(c.rcv, seen)
    ensures var r := WC.WrapState(c).rcv;
      r.bufUsed + Size(r.nxt, r.acc) <= r.bufSize && r.bufUsed == |Flat(r.ready)|
    ensures forall a :: a in c.rcv.acks ==> a.number + Shl(a.window, c.rcv.scale) <= c.rcv.acc
  {
    hide Wire, SP.Core, SP.Placed, RP.AllQueued, RP.AcksOk, RP.PrefixOf, Flat, Shl, RW.SackOk;
    TestsOnWire(c.rcv.nxt, c.rcv.acc);
    SizeExact(c.rcv.nxt, c.rcv.acc);
  }

  // ----- the end-to-end theorem while the window is respected

  /** Nothing older than half the number space is delivered. */
  ghost predicate Recent(c: State, e: Event) {
    match e
    case AckArrives(k, _) => k < |c.rcv.acks| ==> c.snd.una - c.rcv.acks[k].number <= HALF
    case SegmentArrives(k) => k < |c.snd.out| ==> c.rcv.nxt - c.snd.out[k].num < HALF
    case _ => true
  }

  ghost predicate RecentRun(c: State, es: seq<(Event, int)>)
    decreases |es|
  {
    |es| == 0 || (Recent(c, es[0].0) && RecentRun(Step(Unbounded, c, es[0].0, es[0].1), es[1..]))
  }

  lemma RecentIsFresh(c: State, e: Event, seen: set<Packet>)
    requires Recent(c, e) && RW.Window(c.rcv, seen)
    ensures Fresh(c, e)
  {
    hide RW.AllLeftOf, RW.Promised, RW.SackOk;
  }

  lemma {:induction false} RecentRunIsFresh(base: int, c: State, m: nat, es: seq<(Event, int)>, seen: set<Packet>)
    requires Inv(base, c, m) && RecentRun(c, es) && InsideRun(c, es) && RW.Window(c.rcv, seen)
    ensures FreshRun(c, es)
    decreases |es|
  {
    hide Wire, Inv, Fresh, Recent, Inside, Step, RW.Window;
    if |es| > 0 {
      var (e, now) := es[0];
      RecentIsFresh(c, e, seen);
      var n := StepKeeps(base, c, m, e, now);
      var more := StepWindow(base, c, m, e, now, seen);
      RecentRunIsFresh(base, Step(Unbounded, c, e, now), n, es[1..], more);
    }
  }

  /** While what arrives ends inside the receiver's window, nothing older than 2^31 numbers being
    * delivered is all that the end-to-end theorem asks of the network. */
  lemma EndToEndInside(iss: int, wnd: int, mss: int, sndBuf: int, rcvBuf: nat, scale: nat, es: seq<(Event, int)>)
    requires 0 <= iss < MOD
    requires 0 <= wnd <= SP.MAX_WND && 1 <= mss <= SP.MAX_SEGMENT && rcvBuf <= RP.MAX_BUFFER && scale <= MAX_SCALE
    requires var c0 := Init(Unbounded, iss, wnd, mss, sndBuf, rcvBuf, scale); RecentRun(c0, es) && InsideRun(c0, es)
    ensures Faithful(Run(Uint32, Init(Uint32, iss, wnd, mss, sndBuf, rcvBuf, scale), es))
  {
    hide Wire, Run, Init, Inv, Faithful, RW.Window, FreshRun, RecentRun, InsideRun;
    var c0 := Init(Unbounded, iss, wnd, mss, sndBuf, rcvBuf, scale);
    InitKeeps(iss, wnd, mss, sndBuf, rcvBuf, scale);
    InitWindow(iss, wnd, mss, sndBuf, rcvBuf, scale);
    RecentRunIsFresh(iss, c0, 0, es, {});
    WC.EndToEnd(iss, wnd, mss, sndBuf, rcvBuf, scale, es);
  }

  // ----- this stack's own sender

  /** The acknowledgement that arrives is not behind sndUna. */
  ghost predicate InOrder(c: State, e: Event) {
    e.AckArrives? && e.k < |c.rcv.acks| ==> c.snd.una <= c.rcv.acks[e.k].number
  }

  ghost predicate InOrderRun(c: State, es: seq<(Event, int)>)
    decreases |es|
  {
    |es| == 0 || (InOrder(c, es[0].0) && InOrderRun(Step(Unbounded, c, es[0].0, es[0].1), es[1..]))
  }

  /** What the sender may send and what it has sent end inside the receiver's window. */
  ghost predicate Edge(base: int, c: State) {
    c.snd.una + c.snd.wnd <= c.rcv.acc && SW.DataEnd(base, c.snd) <= c.rcv.acc
  }

  lemma EdgeIsInside(base: int, c: State, m: nat, e: Event)
    requires Inv(base, c, m) && Edge(base, c)
    ensures Inside(c, e)
  {
    hide SP.Core, SP.Placed, RP.Inv, SW.DataEnd;
    if e.SegmentArrives? && e.k < |c.snd.out| && c.snd.out[e.k].LogicalLen() > 0 {
      SentInside(base, c, m, c.snd.out[e.k]);
    }
  }

  /** An acknowledgement that is not behind sndUna gives the sender the edge it promises; an older
    * one gives it one that lies further to the right by its age. */
  lemma SenderEdge(base: int, s: Sender.State, m: nat, a: Ack, scale: nat, len: nat, now: int)
    requires SP.Core(base, s, m) && -HALF <= a.number - s.una < HALF && a.number <= s.nxt
    requires a.window <= MAX_WINDOW && scale <= MAX_SCALE
    ensures var t := Sender.HandleAck(Unbounded, s, a.number, Shl(a.window, scale), len, now);
      && t.una + t.wnd == a.number + Shl(a.window, scale) + Sender.Max(0, s.una - a.number)
      && (Sender.WindowEnd(Unbounded, t) == a.number + Shl(a.window, scale) <==> a.number >= s.una)
  {
    hide Wire, SP.Core, Shl, Sender.HandleAck, SW.DataEnd;
    WindowBound(a.window, scale);
    SW.AckReaches(base, s, m, a.number, Shl(a.window, scale), len, now);
  }

  /** Exactly which acknowledgements, of any age, leave the sender inside the receiver's window: those
    * whose window, counted from the later of their number and sndUna, ends inside it. */
  lemma EdgeExact(base: int, c: State, m: nat, k: nat, len: nat, now: int)
    requires Inv(base, c, m) && !c.dead && Edge(base, c) && k < |c.rcv.acks| && Fresh(c, AckArrives(k, len))
    ensures var a := c.rcv.acks[k];
      Edge(base, Step(Unbounded, c, AckArrives(k, len), now)) <==>
        Sender.Max(a.number, c.snd.una) + Shl(a.window, c.rcv.scale) <= c.rcv.acc
  {
    hide Wire, SP.Core, SP.Placed, SP.IsPlace, RP.Inv, Shl, SW.DataEnd, Sender.HandleAck;
    var a := c.rcv.acks[k];
    AckOnPlace(base, c, m, a);
    WindowBound(a.window, c.rcv.scale);
    SP.CoreReach(base, c.snd, m);
    SW.AckReaches(base, c.snd, m, a.number, Shl(a.window, c.rcv.scale), len, now);
  }

  lemma SenderStepEdge(base: int, c: State, m: nat, e: Event, now: int, seen: set<Packet>)
    requires Inv(base, c, m) && !c.dead && Fresh(c, e) && InOrder(c, e) && Edge(base, c) && RW.Window(c.rcv, seen)
    requires SenderEvent(c, e).Some?
    ensures Edge(base, Step(Unbounded, c, e, now))
  {
    hide Wire, SP.Core, SP.Placed, SP.IsPlace, RP.Inv, Shl, SW.DataEnd, Sender.HandleAck, RW.SackOk, RW.AllLeftOf;
    if e.AckArrives? {
      EdgeExact(base, c, m, e.k, e.len, now);
    } else {
      SW.OwnReaches(base, c.snd, m, SenderEvent(c, e).value, now);
    }
  }

  lemma StepEdge(base: int, c: State, m: nat, e: Event, now: int, seen: set<Packet>)
    requires Inv(base, c, m) && Fresh(c, e) && InOrder(c, e) && Edge(base, c) && RW.Window(c.rcv, seen)
    ensures Edge(base, Step(Unbounded, c, e, now))
  {
    hide Wire, Inv, Fresh, InOrder, Inside, ReceiverStep, SR.Step, RW.Window, SW.DataEnd;
    if SenderEvent(c, e).Some? && !c.dead {
      SenderStepEdge(base, c, m, e, now, seen);
    } else if SenderEvent(c, e).None? {
      EdgeIsInside(base, c, m, e);
      var more := ReceiverStepWindow(base, c, m, e, seen);
      ReceiverOnly(c, e);
    }
  }

  lemma ReceiverOnly(c: State, e: Event)
    ensures ReceiverStep(Unbounded, c, e).snd == c.snd
  {
    hide Receiver.Handle, Receiver.SendAck, Receiver.Read;
  }

  /** When no acknowledgement overtakes a later one, the sender never sends data beyond the edge
    * of the receiver's window, nor a FIN beyond the number after it. */
  lemma {:induction false} RunEdge(base: int, c: State, m: nat, es: seq<(Event, int)>, seen: set<Packet>)
    returns (m': nat)
    requires Inv(base, c, m) && RecentRun(c, es) && InOrderRun(c, es) && Edge(base, c) && RW.Window(c.rcv, seen)
    ensures FreshRun(c, es) && InsideRun(c, es)
    ensures Inv(base, Run(Unbounded, c, es), m') && Edge(base, Run(Unbounded, c, es))
    decreases |es|
  {
    hide Wire, Inv, Fresh, Recent, Inside, InOrder, Edge, Step, RW.Window;
    m' := m;
    if |es| > 0 {
      var (e, now) := es[0];
      RecentIsFresh(c, e, seen);
      EdgeIsInside(base, c, m, e);
      var n := StepKeeps(base, c, m, e, now);
      StepEdge(base, c, m, e, now, seen);
      var more := StepWindow(base, c, m, e, now, seen);
      m' := RunEdge(base, Step(Unbounded, c, e, now), n, es[1..], more);
    }
  }

  lemma InitEdges(base: int, wnd: int, mss: int, sndBuf: int, rcvBuf: nat, scale: nat)
    requires wnd <= rcvBuf
    ensures Edge(base, Init(Unbounded, base, wnd, mss, sndBuf, rcvBuf, scale))
  {
  }

  /** The stack against itself, on uint32 numbers: if the network delivers no data older than 2^31
    * and no acknowledgement behind sndUna, then besides the end-to-end guarantee no data is sent
    * past the receiver's window, and buffered bytes and open window fit the receive buffer. */
  lemma OwnSender(iss: int, wnd: int, mss: int, sndBuf: int, rcvBuf: nat, scale: nat, es: seq<(Event, int)>)
    requires 0 <= iss < MOD
    requires 0 <= wnd <= SP.MAX_WND && 1 <= mss <= SP.MAX_SEGMENT && rcvBuf <= RP.MAX_BUFFER && scale <= MAX_SCALE
    requires wnd <= rcvBuf
    requires var c0 := Init(Unbounded, iss, wnd, mss, sndBuf, rcvBuf, scale); RecentRun(c0, es) && InOrderRun(c0, es)
    ensures var c := Run(Uint32, Init(Uint32, iss, wnd, mss, sndBuf, rcvBuf, scale), es);
      && Faithful(c)
      && c.rcv.bufUsed + Size(c.rcv.nxt, c.rcv.acc) <= c.rcv.bufSize && c.rcv.bufUsed == |Flat(c.rcv.ready)|
    ensures var u := Run(Unbounded, Init(Unbounded, iss, wnd, mss, sndBuf, rcvBuf, scale), es);
      forall p :: p in u.snd.out && p.LogicalLen() > 0 ==> p.num + |p.data| <= u.rcv.acc
  {
    hide Wire, Run, Init, Inv, Faithful, Flat, RW.Window, FreshRun, RecentRun, InsideRun, InOrderRun, Edge;
    var c0 := Init(Unbounded, iss, wnd, mss, sndBuf, rcvBuf, scale);
    InitKeeps(iss, wnd, mss, sndBuf, rcvBuf, scale);
    InitWindow(iss, wnd, mss, sndBuf, rcvBuf, scale);
    InitEdges(iss, wnd, mss, sndBuf, rcvBuf, scale);
    var m := RunEdge(iss, c0, 0, es, {});
    EndToEndInside(iss, wnd, mss, sndBuf, rcvBuf, scale, es);
    WindowConservation(iss, wnd, mss, sndBuf, rcvBuf, scale, es);
    var u := Run(Unbounded, c0, es);
    forall p | p in u.snd.out && p.LogicalLen() > 0
      ensures p.num + |p.data| <= u.rcv.acc
    {
      SentInside(iss, u, m, p);
    }
  }

  lemma SentInside(base: int, c: State, m: nat, p: Packet)
    requires Inv(base, c, m) && Edge(base, c) && p in c.snd.out && p.LogicalLen() > 0
    ensures RW.EndsInside(c.rcv, p)
  {
    hide SP.Core, SP.Placed, RP.Inv, SW.DataEnd;
    SW.OutEnds(base, c.snd, m, p);
  }
}
