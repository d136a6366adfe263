/** One direction of a connection: a sender, a receiver, and between them a network that may
  * lose, repeat and reorder whatever either of them has sent.
  *
  * An event that delivers names one of the segments or acknowledgements sent so far; a lost
  * one is never named, a repeated one is named again.
  */
module Connection {
  import opened Packets
  import opened Seqnum
  import Heap
  import Sender
  import Receiver
  import SP = SenderProofs
  import SE = SenderEvents
  import SR = SenderRuns
  import RP = ReceiverProofs

  datatype Option<T> = None | Some(value: T)

  datatype State = State(snd: Sender.State, rcv: Receiver.State, dead: bool)

  datatype Event =
    | Sends(e: SR.Event)               // anything the sender does of itself
    | AckArrives(k: nat, len: nat)     // carried by a segment of logical length len
    | SegmentArrives(k: nat)
    | SendAck                          // on any segment the receiver's side sends
    | Read

  /** The event of the sender, if it is one. */
  function SenderEvent(c: State, e: Event): Option<SR.Event> {
    match e
    case Sends(e) => if e.AckComes? then None else Some(e)
    case AckArrives(k, len) =>
      if k < |c.rcv.acks| then Some(SR.AckComes(c.rcv.acks[k].number, Shl(c.rcv.acks[k].window, c.rcv.scale), len))
      else None
    case _ => None
  }

  function ReceiverStep(w: Width, c: State, e: Event): State {
    var r := c.rcv;
    match e
    case SegmentArrives(k) => if k >= |c.snd.out| then c else c.(rcv := Receiver.Handle(w, r, c.snd.out[k]))
    case SendAck => c.(rcv := Receiver.SendAck(w, r))
    case Read => c.(rcv := Receiver.Read(r))
    case _ => c
  }

  /** One event; a sender that has given up does nothing more. */
  function Step(w: Width, c: State, e: Event, now: int): State {
    match SenderEvent(c, e)
    case None => ReceiverStep(w, c, e)
    case Some(se) =>
      if c.dead then c
      else
        var (t, alive) := SR.Step(w, c.snd, se, now);
        c.(snd := t, dead := !alive)
  }

  function Run(w: Width, c: State, es: seq<(Event, int)>): State
    decreases |es|
  {
    if |es| == 0 then c else Run(w, Step(w, c, es[0].0, es[0].1), es[1..])
  }

  /** What is delivered is not older than half the number space. */
  ghost predicate Fresh(c: State, e: Event) {
    match e
    case AckArrives(k, _) => k < |c.rcv.acks| ==> c.snd.una - c.rcv.acks[k].number <= HALF
    case SegmentArrives(k) => k < |c.snd.out| ==> RP.Young(c.rcv, c.snd.out[k])
    case _ => true
  }

  ghost predicate FreshRun(c: State, es: seq<(Event, int)>)
    decreases |es|
  {
    |es| == 0 || (Fresh(c, es[0].0) && FreshRun(Step(Unbounded, c, es[0].0, es[0].1), es[1..]))
  }

  /** Both ends after the handshake: the sender's first number is the receiver's rcvNxt. */
  function Init(w: Width, base: int, wnd: int, mss: int, sndBuf: int, rcvBuf: nat, scale: nat): State {
    State(Sender.Init(base, wnd, mss, sndBuf, w),
          Receiver.State(base, Add(w, base, rcvBuf), scale, false, [], 0, rcvBuf, [], [], [], 0, rcvBuf, false, []),
          false)
  }

  // ----- the invariant

  ghost function Ends(out: seq<Packet>): set<int> {
    set p | p in out && p.LogicalLen() > 0 :: p.End()
  }

  ghost function Ctx(base: int, s: Sender.State): RP.Context {
    RP.Context(base, s.written, s.sndClosed, Ends(s.out), s.una, s.nxt)
  }

  ghost predicate SenderOk(base: int, c: State, m: nat) {
    SP.Core(base, c.snd, m) && SP.Placed(base, c.snd, m) && (!c.dead ==> SE.Rest(base, c.snd, m))
  }

  ghost predicate Inv(base: int, c: State, m: nat) {
    SenderOk(base, c, m) && RP.Inv(Ctx(base, c.snd), c.rcv)
  }

  /** The receiver does not mind the sender moving on. */
  lemma ContextGrows(c: RP.Context, d: RP.Context, r: Receiver.State)
    requires RP.Inv(c, r)
    requires d.base == c.base && c.stream <= d.stream && c.ends <= d.ends && c.una <= d.una && c.top <= d.top
    requires c.fin ==> d.fin && d.stream == c.stream
    requires d.una <= r.nxt && d.una <= r.acc && d.top <= d.una + RP.SPAN
    ensures RP.Inv(d, r)
  {
    forall p | p in multiset(r.pending)
      ensures RP.Queued(d, p)
    {
      assert RP.Queued(c, p);
      GenuineGrows(c, d, p);
    }
  }

  lemma GenuineGrows(c: RP.Context, d: RP.Context, p: Packet)
    requires RP.Genuine(c, p)
    requires d.base == c.base && c.stream <= d.stream && c.ends <= d.ends && c.top <= d.top
    requires c.fin ==> d.fin && d.stream == c.stream
    ensures RP.Genuine(d, p)
  {
    if |p.data| > 0 {
      var at := p.num - c.base;
      assert d.stream[at..at + |p.data|] == d.stream[..|c.stream|][at..at + |p.data|];
    }
  }

  /** Every segment sent is genuine. */
  lemma SentGenuine(base: int, s: Sender.State, m: nat, p: Packet)
    requires SP.Placed(base, s, m) && p in s.out
    ensures RP.Genuine(Ctx(base, s), p)
  {
    assert SP.Slice(base, s, p);
  }

  lemma EndsGrow(a: seq<Packet>, b: seq<Packet>)
    requires a <= b
    ensures Ends(a) <= Ends(b)
  {
    forall p | p in a
      ensures p in b
    {
      var i :| 0 <= i < |a| && a[i] == p;
      assert b[i] == p;
    }
  }

  /** A sender event that keeps the sender's side keeps the whole. */
  lemma SenderMoves(base: int, c: State, m: nat, d: State, m': nat)
    requires Inv(base, c, m) && d == c.(snd := d.snd, dead := d.dead) && SenderOk(base, d, m')
    requires var s := c.snd; var t := d.snd;
      && s.out <= t.out && s.nxt <= t.nxt && s.written <= t.written
      && (s.sndClosed ==> t.sndClosed && t.written == s.written)
      && s.una <= t.una && (t.una == s.una || exists a :: a in c.rcv.acks && a.number == t.una)
    ensures Inv(base, d, m')
  {
    hide SP.Ledger, SP.Labels, SP.Placed, SP.Recovering, SP.Congestion, RP.AllQueued, RP.PrefixOf, Heap.Ordered;
    EndsGrow(c.snd.out, d.snd.out);
    ContextGrows(Ctx(base, c.snd), Ctx(base, d.snd), c.rcv);
  }

  /** Every acknowledgement lands on a segment boundary of the write list, or names nothing new. */
  lemma AckOnPlace(base: int, c: State, m: nat, a: Ack)
    requires Inv(base, c, m) && a in c.rcv.acks
    ensures a.number <= c.snd.una || SP.IsPlace(c.snd, m, a.number)
    ensures base <= a.number <= c.snd.nxt && a.window <= MAX_WINDOW
    ensures a.number <= c.rcv.nxt && a.number <= c.rcv.acc && c.rcv.scale <= MAX_SCALE
  {
    hide SP.IsPlace, SP.Labels, SP.Recovering, SP.Congestion, RP.AllQueued, RP.PrefixOf, Heap.Ordered;
    var ctx := Ctx(base, c.snd);
    if a.number != base {
      assert a.number in ctx.ends;
      var p :| p in c.snd.out && p.LogicalLen() > 0 && p.End() == a.number;
    }
  }

  lemma SenderStepKeeps(base: int, c: State, m: nat, e: Event, now: int) returns (m': nat)
    requires Inv(base, c, m) && !c.dead && Fresh(c, e) && SenderEvent(c, e).Some?
    ensures Inv(base, Step(Unbounded, c, e, now), m')
  {
    hide Wire, SP.Ledger, SP.Labels, SP.Placed, SP.Recovering, SP.Congestion, SP.IsPlace, RP.Inv, SR.Step, Shl;
    var se := SenderEvent(c, e).value;
    if e.AckArrives? {
      var a := c.rcv.acks[e.k];
      AckOnPlace(base, c, m, a);
      WindowBound(a.window, c.rcv.scale);
    }
    m' := SR.StepKeeps(base, c.snd, m, se, now);
    SenderMoves(base, c, m, Step(Unbounded, c, e, now), m');
  }

  lemma ReceiverStepKeeps(base: int, c: State, m: nat, e: Event)
    requires Inv(base, c, m) && Fresh(c, e)
    ensures Inv(base, ReceiverStep(Unbounded, c, e), m)
  {
    hide Wire, SP.Core, SP.Placed, RP.Core, RP.Genuine, RP.Young, Receiver.Handle, Receiver.Read, Receiver.SendAck;
    match e {
      case SegmentArrives(k) =>
        if k < |c.snd.out| {
          SentGenuine(base, c.snd, m, c.snd.out[k]);
          RP.HandleKeeps(Ctx(base, c.snd), c.rcv, c.snd.out[k]);
        }
      case SendAck => RP.SendAckRests(Ctx(base, c.snd), c.rcv);
      case Read => RP.ReadKeeps(Ctx(base, c.snd), c.rcv);
      case _ =>
    }
  }

  lemma StepKeeps(base: int, c: State, m: nat, e: Event, now: int) returns (m': nat)
    requires Inv(base, c, m) && Fresh(c, e)
    ensures Inv(base, Step(Unbounded, c, e, now), m')
  {
    hide Wire, Inv, Fresh, ReceiverStep, SR.Step;
    if SenderEvent(c, e).None? {
      ReceiverStepKeeps(base, c, m, e);
      m' := m;
    } else if c.dead {
      m' := m;
    } else {
      m' := SenderStepKeeps(base, c, m, e, now);
    }
  }

  lemma {:induction false} RunKeeps(base: int, c: State, m: nat, es: seq<(Event, int)>) returns (m': nat)
    requires Inv(base, c, m) && FreshRun(c, es)
    ensures Inv(base, Run(Unbounded, c, es), m')
    decreases |es|
  {
    hide Wire, Inv, Fresh, Step;
    if |es| == 0 {
      m' := m;
    } else {
      var n := StepKeeps(base, c, m, es[0].0, es[0].1);
      m' := RunKeeps(base, Step(Unbounded, c, es[0].0, es[0].1), n, es[1..]);
    }
  }

  lemma InitKeeps(base: int, wnd: int, mss: int, sndBuf: int, rcvBuf: nat, scale: nat)
    requires 0 <= wnd <= SP.MAX_WND && 1 <= mss <= SP.MAX_SEGMENT && rcvBuf <= RP.MAX_BUFFER && scale <= MAX_SCALE
    ensures Inv(base, Init(Unbounded, base, wnd, mss, sndBuf, rcvBuf, scale), 0)
  {
    SE.InitKeeps(base, wnd, mss, sndBuf);
  }

  /** What a connection promises its two applications. */
  ghost predicate Faithful(c: State) {
    && !c.snd.fault
    && Receiver.Delivered(c.rcv) <= c.snd.written
    && c.rcv.taken <= c.snd.written
    && (c.rcv.closed ==> c.snd.sndClosed && Receiver.Delivered(c.rcv) == c.snd.written)
  }

  lemma InvIsFaithful(base: int, c: State, m: nat)
    requires Inv(base, c, m)
    ensures Faithful(c)
  {
    hide SP.Ledger, SP.Labels, SP.Placed, SP.Recovering, SP.Congestion, RP.AllQueued, RP.AcksOk, Heap.Ordered;
    var d, w := Receiver.Delivered(c.rcv), c.snd.written;
    assert d == w[..|d|];
    assert c.rcv.taken == d[..|c.rcv.taken|];
  }

  /** End to end, in every run from the handshake on, over a network that loses, repeats and
    * reorders: what the receiver hands up is a prefix of what the sender accepted, the end of
    * the stream is reported only after all of it, every acknowledgement still to be taken names
    * a segment boundary of the write list, and the sender does not panic. */
  lemma EndToEnd(base: int, wnd: int, mss: int, sndBuf: int, rcvBuf: nat, scale: nat, es: seq<(Event, int)>)
    returns (m: nat)
    requires 0 <= wnd <= SP.MAX_WND && 1 <= mss <= SP.MAX_SEGMENT && rcvBuf <= RP.MAX_BUFFER && scale <= MAX_SCALE
    requires FreshRun(Init(Unbounded, base, wnd, mss, sndBuf, rcvBuf, scale), es)
    ensures var c := Run(Unbounded, Init(Unbounded, base, wnd, mss, sndBuf, rcvBuf, scale), es);
      && Faithful(c)
      && (forall a :: a in c.rcv.acks ==> a.number <= c.snd.una || SP.IsPlace(c.snd, m, a.number))
  {
    hide Wire, Inv, Run, Init, Faithful, SP.IsPlace;
    var c0 := Init(Unbounded, base, wnd, mss, sndBuf, rcvBuf, scale);
    InitKeeps(base, wnd, mss, sndBuf, rcvBuf, scale);
    m := RunKeeps(base, c0, 0, es);
    var c := Run(Unbounded, c0, es);
    InvIsFaithful(base, c, m);
    forall a | a in c.rcv.acks
      ensures a.number <= c.snd.una || SP.IsPlace(c.snd, m, a.number)
    {
      AckOnPlace(base, c, m, a);
    }
  }
}
