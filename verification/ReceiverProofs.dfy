/** What the receiver keeps, on unbounded numbers, whatever arrives.
  *
  * A stream of bytes, possibly finished, starts at number `base`; arriving segments are
  * slices of it. Nothing else is known of the sender but how far it can be ahead.
  */
module ReceiverProofs {
  import opened Packets
  import opened Seqnum
  import opened Receiver
  import Heap
  import Sack

  const SPAN: int := 0x3fff_c001     // the sender is at most this far ahead: 0xffff << 14, and a FIN
  const AGE: int := HALF - SPAN - 1
  const MAX_SEGMENT: int := 0xffff
  const MAX_BUFFER: int := 0x4000_0000

  /** base: first number of the stream; ends: where the segments sent so far end;
    * una, top: what the sender knows to be acknowledged, and the end of what it has sent. */
  datatype Context = Context(base: int, stream: seq<byte>, fin: bool, ends: set<int>, una: int, top: int)

  ghost predicate Genuine(c: Context, p: Packet) {
    && c.base <= p.num && p.End() <= c.top
    && |p.data| <= MAX_SEGMENT
    && (|p.data| > 0 ==> p.num + |p.data| <= c.base + |c.stream|
                         && p.data == c.stream[p.num - c.base..p.num - c.base + |p.data|])
    && (p.fin ==> p.data == [] && c.fin && p.num == c.base + |c.stream|)
    && (p.LogicalLen() > 0 ==> p.End() in c.ends)
  }

  ghost predicate Queued(c: Context, p: Packet) {
    Genuine(c, p) && p.LogicalLen() > 0 && c.top - p.num < HALF
  }

  ghost function Num(): Packet -> int {
    (p: Packet) => p.num
  }

  ghost predicate AllQueued(c: Context, ps: seq<Packet>) {
    forall p :: p in multiset(ps) ==> Queued(c, p)
  }

  ghost predicate AcksOk(c: Context, nxt: int, acc: int, acks: seq<Ack>) {
    forall a :: a in acks ==>
      && c.base <= a.number <= nxt && a.number <= acc && a.window <= MAX_WINDOW
      && (a.number == c.base || a.number in c.ends)
  }

  ghost predicate PrefixOf(delivered: seq<byte>, stream: seq<byte>) {
    |delivered| <= |stream| && delivered == stream[..|delivered|]
  }

  /** The stream was delivered up to nxt, and the numbers are within reach. */
  ghost predicate Core(c: Context, r: State) {
    && c.una <= r.nxt <= c.top <= c.una + SPAN
    && c.una <= r.acc <= r.nxt + MAX_BUFFER
    && r.scale <= MAX_SCALE
    && r.bufSize <= MAX_BUFFER && r.bufUsed == |Flat(r.ready)|
    && PrefixOf(Delivered(r), c.stream)
    && r.nxt == c.base + |Delivered(r)| + (if r.closed then 1 else 0)
    && (r.nxt == c.base || r.nxt in c.ends)
    && (r.closed ==> c.fin && |Delivered(r)| == |c.stream|)
    && r.rcvClosed == r.closed
    && AcksOk(c, r.nxt, r.acc, r.acks)
    && AllQueued(c, r.pending)
  }

  ghost predicate Inv(c: Context, r: State) {
    && Core(c, r)
    && Heap.Ordered(Num(), r.pending)
    && (if r.closed then r.pending == [] else forall p :: p in multiset(r.pending) ==> r.nxt - AGE <= p.num)
  }

  /** No older than half the number space while the receiver is inside its own window; when
    * it has been overrun, an old duplicate may be queued and must be younger. */
  ghost predicate Young(r: State, p: Packet) {
    r.nxt - p.num < if r.nxt <= r.acc then HALF else AGE
  }

  /** r later than q: only the listed fields of a receiver ever change, and only this way. */
  ghost predicate Later(q: State, r: State) {
    && q.nxt <= r.nxt && q.acc <= r.acc
    && Delivered(q) <= Delivered(r)
    && q.acks <= r.acks
    && q.scale == r.scale && q.bufSize == r.bufSize && q.pendingSize == r.pendingSize
  }

  lemma KeyedByNum(c: Context, ps: seq<Packet>)
    requires AllQueued(c, ps)
    ensures Heap.Keyed(Less, Num(), ps)
  {
    hide Wire;
    forall a, b | a in multiset(ps) && b in multiset(ps)
      ensures Less(a, b) <==> Num()(a) < Num()(b)
    {
      LessThanExact(a.num, b.num);
    }
  }

  // ----- acknowledgements and the window

  lemma OpenWindowExact(c: Context, r: State)
    requires Core(c, r)
    ensures var o := OpenWindow(Unbounded, r);
      && o == r.(acc := if r.acc < r.nxt + Available(r) then r.nxt + Available(r) else r.acc)
      && Core(c, o) && r.acc <= o.acc && r.nxt <= o.acc
  {
    hide Wire, AllQueued, PrefixOf, Flat;
    LessThanExact(r.acc, r.nxt + Available(r));
  }

  lemma SendAckKeeps(c: Context, r: State)
    requires Core(c, r)
    ensures var o := SendAck(Unbounded, r);
      && Core(c, o) && Later(r, o) && r.nxt <= o.acc && o.acc == OpenWindow(Unbounded, r).acc
      && o == r.(acc := o.acc, acks := r.acks + [Ack(r.nxt, Advertised(OpenWindow(Unbounded, r)))])
  {
    hide Wire, AllQueued, PrefixOf, Flat, OpenWindow;
    OpenWindowExact(c, r);
  }

  // ----- consuming

  lemma ConsumableExact(c: Context, r: State, p: Packet)
    requires Core(c, r) && Genuine(c, p) && r.nxt - p.num <= HALF
    ensures Consumable(r, p) <==> if |p.data| > 0 then p.num <= r.nxt < p.num + |p.data| else p.num == r.nxt
  {
    hide Wire;
    if |p.data| > 0 {
      InRangeExact(r.nxt, p.num, p.num + |p.data|);
    } else {
      LessThanExact(p.num, r.nxt);
    }
  }

  lemma PassedExact(c: Context, r: State, p: Packet)
    requires Core(c, r) && Queued(c, p)
    ensures Passed(r, p) <==> p.num + |p.data| - 1 < r.nxt
  {
    hide Wire;
    LessThanExact(p.num + |p.data| - 1, r.nxt);
  }

  /** What is left of a consumable segment starts at nxt and is the next piece of the stream. */
  lemma FreshExact(c: Context, r: State, p: Packet)
    requires Core(c, r) && Genuine(c, p) && (|p.data| > 0 ==> p.num <= r.nxt < p.num + |p.data|)
    requires |p.data| == 0 ==> p.num == r.nxt
    ensures var t := Fresh(Unbounded, r, p);
      && t.num == r.nxt && t.End() == p.End() && t.fin == p.fin && |t.data| <= |p.data|
      && Genuine(c, t)
  {
    hide Wire;
    LessThanExact(p.num, r.nxt);
    SizeExact(p.num, r.nxt);
  }

  /** The next thing to consume: it starts at or before nxt and ends after it, or is an empty
    * segment exactly there. */
  ghost predicate Next(c: Context, r: State, p: Packet) {
    && Core(c, r) && !r.closed && Genuine(c, p)
    && if |p.data| > 0 then p.num <= r.nxt < p.num + |p.data| else p.num == r.nxt
  }

  lemma PrefixExtends(stream: seq<byte>, delivered: seq<byte>, more: seq<byte>)
    requires PrefixOf(delivered, stream) && |delivered| + |more| <= |stream|
    requires more == stream[|delivered|..|delivered| + |more|]
    ensures PrefixOf(delivered + more, stream)
  {
  }

  /** Delivering the next piece. */
  lemma DeliverExact(c: Context, r: State, p: Packet, t: Packet)
    requires Core(c, r) && |Delivered(r)| + |t.data| <= |c.stream| && (p.data == [] ==> t.data == [])
    requires t.data == c.stream[|Delivered(r)|..|Delivered(r)| + |t.data|]
    ensures var d := Deliver(r, p, t);
      && d == r.(ready := d.ready, bufUsed := d.bufUsed) && d.bufUsed == |Flat(d.ready)|
      && Delivered(d) == Delivered(r) + t.data && PrefixOf(Delivered(d), c.stream)
  {
    hide Wire, AllQueued, AcksOk, PrefixOf, Flat;
    FlatAppend(r.ready, t.data);
    PrefixExtends(c.stream, Delivered(r), t.data);
    if p.data == [] {
      assert Delivered(r) + t.data == Delivered(r);
    } else {
      assert r.taken + (Flat(r.ready) + t.data) == Delivered(r) + t.data;
    }
  }

  lemma AdvanceKeeps(c: Context, r: State, p: Packet)
    requires Next(c, r, p)
    ensures var o := Advance(Unbounded, r, p, Fresh(Unbounded, r, p));
      && Core(c, o) && Later(r, o) && o.nxt == p.num + |p.data| && o.closed == r.closed && o.pending == r.pending
  {
    hide Wire, AllQueued, Flat, Fresh, Deliver, Sack.Trim;
    FreshExact(c, r, p);
    var t := Fresh(Unbounded, r, p);
    assert t.data == c.stream[|Delivered(r)|..|Delivered(r)| + |t.data|];
    DeliverExact(c, r, p, t);
  }

  lemma CloseKeeps(c: Context, r: State, queued: bool)
    requires Core(c, r) && !r.closed && c.fin && |Delivered(r)| == |c.stream|
    requires r.nxt + 1 in c.ends && r.nxt + 1 <= c.top
    ensures var o := Close(Unbounded, r, queued);
      && Core(c, o) && Later(r, o) && o.nxt == r.nxt + 1 && o.closed
      && o.pending == if queued && |r.pending| > 0 then r.pending[..1] else []
  {
    hide Wire, PrefixOf, Flat, SendAck, Genuine;
    var m := r.(nxt := r.nxt + 1, closed := true, rcvClosed := true);
    assert Core(c, m);
    SendAckKeeps(c, m);
    SendAckClosed(r.(nxt := r.nxt + 1));
    assert r.pending == r.pending[..|r.pending|];
    if |r.pending| > 0 {
      assert r.pending == r.pending[..1] + r.pending[1..];
    }
  }

  /** Whether the receiver is already marked closed does not matter to an acknowledgement. */
  lemma SendAckClosed(r: State)
    ensures SendAck(Unbounded, r.(closed := true, rcvClosed := true)) ==
      SendAck(Unbounded, r).(closed := true, rcvClosed := true)
  {
    hide Wire;
  }

  lemma ConsumeKeeps(c: Context, r: State, p: Packet, queued: bool)
    requires Next(c, r, p)
    ensures var o := Consume(Unbounded, r, p, queued);
      && Core(c, o) && Later(r, o) && o.nxt == p.End() && o.closed == p.fin
      && o.pending == (if !p.fin then r.pending else if queued && |r.pending| > 0 then r.pending[..1] else [])
  {
    hide Wire, AllQueued, AcksOk, PrefixOf, Flat, Fresh, Advance, Close;
    AdvanceKeeps(c, r, p);
    if p.fin {
      CloseKeeps(c, Advance(Unbounded, r, p, Fresh(Unbounded, r, p)), queued);
    }
  }

  // ----- the queued segments

  lemma PopKeeps(c: Context, r: State)
    requires Core(c, r) && |r.pending| > 0 && Heap.OrderedBelowRoot(Num(), r.pending)
    ensures var o := PopRoot(r);
      && Core(c, o) && Later(r, o) && o == r.(pending := o.pending, pendingUsed := o.pendingUsed)
      && Heap.Ordered(Num(), o.pending) && |o.pending| < |r.pending|
      && (forall p :: p in multiset(o.pending) ==> p in multiset(r.pending))
  {
    hide Genuine, AcksOk, PrefixOf, Flat, Less, Num, Heap.Rest, Heap.Ordered, Heap.OrderedBelowRoot, Heap.Keyed;
    KeyedByNum(c, r.pending);
    Heap.PopOrdered(Less, Num(), r.pending);
    Heap.PopContents(Less, r.pending);
  }

  lemma TrimRootKeeps(c: Context, r: State, t: Packet)
    requires Core(c, r) && |r.pending| > 0 && Heap.Ordered(Num(), r.pending) && Queued(c, t)
    ensures var ps := r.pending[0 := t];
      Core(c, r.(pending := ps)) && Heap.OrderedBelowRoot(Num(), ps)
  {
    hide Genuine, AcksOk, PrefixOf, Flat;
    var ps := r.pending[0 := t];
    assert multiset(ps) == multiset(r.pending) - multiset{r.pending[0]} + multiset{t};
  }

  lemma DrainOneKeeps(c: Context, r: State)
    requires Core(c, r) && !r.closed && |r.pending| > 0 && Heap.Ordered(Num(), r.pending)
    requires Passed(r, r.pending[0]) || Consumable(r, r.pending[0])
    ensures var o := DrainOne(Unbounded, r);
      && Core(c, o) && Later(r, o) && Heap.Ordered(Num(), o.pending) && |o.pending| < |r.pending|
      && (o.closed ==> o.pending == [])
  {
    hide Wire, AcksOk, PrefixOf, Flat, Passed, Consumable, Fresh, Consume, PopRoot;
    var p := r.pending[0];
    assert p in multiset(r.pending);
    if Passed(r, p) {
      PopKeeps(c, r);
    } else {
      PassedExact(c, r, p);
      ConsumableExact(c, r, p);
      FreshExact(c, r, p);
      var t := Fresh(Unbounded, r, p);
      TrimRootKeeps(c, r, t);
      var q := r.(pending := r.pending[0 := t]);
      ConsumeKeeps(c, q, p, true);
      PopKeeps(c, Consume(Unbounded, q, p, true));
    }
  }

  lemma AllBeyond(c: Context, r: State)
    requires Core(c, r) && |r.pending| > 0 && Heap.Ordered(Num(), r.pending)
    requires !Passed(r, r.pending[0]) && !Consumable(r, r.pending[0])
    ensures forall p :: p in multiset(r.pending) ==> r.nxt < p.num
  {
    hide Wire, AcksOk, PrefixOf, Flat, Passed, Consumable;
    var p := r.pending[0];
    assert p in multiset(r.pending);
    PassedExact(c, r, p);
    ConsumableExact(c, r, p);
    forall q | q in multiset(r.pending)
      ensures r.nxt < q.num
    {
      assert q in r.pending;
      var i :| 0 <= i < |r.pending| && r.pending[i] == q;
      Heap.RootIsLeast(Num(), r.pending, i);
    }
  }

  /** Draining stops with every remaining segment strictly beyond the next expected number:
    * the root is tested against it, and the heap orders the rest behind the root. */
  lemma {:induction false} DrainKeeps(c: Context, r: State)
    requires Core(c, r) && Heap.Ordered(Num(), r.pending) && (r.closed ==> r.pending == [])
    ensures var o := Drain(Unbounded, r);
      && Core(c, o) && Later(r, o) && Heap.Ordered(Num(), o.pending)
      && (if o.closed then o.pending == [] else forall p :: p in multiset(o.pending) ==> o.nxt < p.num)
    decreases |r.pending|
  {
    hide Wire, AcksOk, AllQueued, PrefixOf, Flat, Passed, Consumable, DrainOne, Core, Heap.Ordered;
    if r.closed || |r.pending| == 0 {
    } else if Passed(r, r.pending[0]) || Consumable(r, r.pending[0]) {
      DrainOneKeeps(c, r);
      DrainKeeps(c, DrainOne(Unbounded, r));
    } else {
      AllBeyond(c, r);
    }
  }

  lemma PushKeeps(c: Context, ps: seq<Packet>, p: Packet)
    requires AllQueued(c, ps) && Heap.Ordered(Num(), ps) && Queued(c, p)
    ensures var qs := Heap.Push(Less, ps, p);
      && Heap.Ordered(Num(), qs) && AllQueued(c, qs)
      && (forall q :: q in multiset(qs) <==> q == p || q in multiset(ps))
  {
    hide Genuine, Less, Heap.Push, Heap.Ordered, Heap.Keyed;
    assert multiset(ps + [p]) == multiset(ps) + multiset{p};
    KeyedByNum(c, ps + [p]);
    Heap.PushOrdered(Less, Num(), ps, p);
  }

  lemma StoreKeeps(c: Context, r: State, p: Packet, sack: seq<Sack.Block>)
    requires Inv(c, r) && !r.closed && Queued(c, p) && r.nxt - p.num <= AGE
    ensures var o := Store(r, p).(sack := sack);
      && Inv(c, o) && Later(r, o) && o.nxt == r.nxt && o.closed == r.closed
      && (forall q :: q in multiset(o.pending) ==> q == p || q in multiset(r.pending))
  {
    hide Genuine, AcksOk, AllQueued, PrefixOf, Flat, Less, Heap.Push, Heap.Ordered;
    PushKeeps(c, r.pending, p);
  }

  lemma QueueKeeps(c: Context, r: State, p: Packet)
    requires Inv(c, r) && !r.closed && Genuine(c, p) && r.nxt - p.num <= AGE
    ensures var o := Queue(Unbounded, r, p);
      && Inv(c, o) && Later(r, o) && o.nxt == r.nxt && !o.closed
      && (forall q :: q in multiset(o.pending) ==> q == p || q in multiset(r.pending))
  {
    hide Wire, AcksOk, AllQueued, PrefixOf, Flat, Store, SendAck, Sack.Update, Heap.Ordered;
    if |p.data| > 0 || p.fin {
      var sack := Sack.Update(r.sack, p.num, p.num + |p.data|, r.nxt);
      StoreKeeps(c, r, p, sack);
      SendAckKeeps(c, Store(r, p).(sack := sack));
    }
  }

  // ----- one segment, from the wire

  /** Inside its own window the receiver turns an old segment down; what it may queue is
    * young enough to be ordered against everything else. */
  lemma AcceptableExact(c: Context, r: State, p: Packet)
    requires Core(c, r) && Genuine(c, p) && r.nxt <= r.acc && r.nxt - p.num < HALF
    ensures Acceptable(r, p.num, |p.data|) <==>
      if r.nxt == r.acc then p.data == [] && p.num == r.nxt
      else r.nxt <= p.num < r.acc || (r.nxt < p.num + |p.data| && p.num < r.acc)
  {
    hide Wire, AcksOk, AllQueued, PrefixOf, Flat;
    SizeExact(r.nxt, r.acc);
    LessThanExact(p.num, r.nxt);
    InRangeExact(p.num, r.nxt, r.acc);
    LessThanExact(r.nxt, p.num + |p.data|);
    if r.nxt < p.num + |p.data| {
      LessThanExact(p.num, r.acc);
    }
  }

  /** handleRcvdSegment keeps the receiver's invariant for every genuine segment that is not
    * too old: what was delivered stays a prefix of the stream and only grows. */
  lemma HandleKeeps(c: Context, r: State, p: Packet)
    requires Inv(c, r) && Genuine(c, p) && Young(r, p)
    ensures var o := Handle(Unbounded, r, p); Inv(c, o) && Later(r, o)
  {
    hide Wire, AcksOk, AllQueued, PrefixOf, Flat, Consumable, Acceptable, Drain, Consume, Queue, SendAck;
    if r.closed {
    } else if !Acceptable(r, p.num, |p.data|) {
      SendAckKeeps(c, r);
    } else {
      ConsumableExact(c, r, p);
      if Consumable(r, p) {
        ConsumeKeeps(c, r, p, false);
        DrainKeeps(c, Consume(Unbounded, r, p, false));
      } else {
        if r.nxt <= r.acc {
          AcceptableExact(c, r, p);
        }
        QueueKeeps(c, r, p);
      }
    }
  }

  /** A FIN that was queued is never consumed: it has no data, so its last number lies before
    * its first, and by the time it is next in order the loop skips it as already received. */
  lemma {:induction false} DrainNeverCloses(c: Context, r: State)
    requires Core(c, r) && Heap.Ordered(Num(), r.pending) && !r.closed
    ensures !Drain(Unbounded, r).closed
    decreases |r.pending|
  {
    hide Wire, AcksOk, PrefixOf, Flat, Passed, Consumable, DrainOne, Heap.Ordered;
    if |r.pending| > 0 && (Passed(r, r.pending[0]) || Consumable(r, r.pending[0])) {
      var p := r.pending[0];
      assert p in multiset(r.pending);
      PassedExact(c, r, p);
      ConsumableExact(c, r, p);
      DrainOneKeeps(c, r);
      DrainOneOpen(r);
      DrainNeverCloses(c, DrainOne(Unbounded, r));
    }
  }

  lemma DrainOneOpen(r: State)
    requires |r.pending| > 0 && !r.closed && (r.pending[0].fin ==> Passed(r, r.pending[0]))
    ensures !DrainOne(Unbounded, r).closed
  {
    hide Wire;
  }

  /** When the stream is closed: by the FIN itself, arriving in order. One that arrives early is
    * forgotten and must be sent again. */
  lemma ClosesExactly(c: Context, r: State, p: Packet)
    requires Inv(c, r) && !r.closed && Genuine(c, p) && r.nxt - p.num < HALF && r.nxt <= r.acc
    ensures Handle(Unbounded, r, p).closed <==> p.fin && p.num == r.nxt
  {
    hide Wire, AcksOk, AllQueued, PrefixOf, Flat, Consumable, Acceptable, Consume, Queue, SendAck;
    AcceptableExact(c, r, p);
    ConsumableExact(c, r, p);
    if !Acceptable(r, p.num, |p.data|) {
      SendAckKeeps(c, r);
    } else if Consumable(r, p) {
      ConsumeKeeps(c, r, p, false);
      var o := Consume(Unbounded, r, p, false);
      if !o.closed {
        DrainNeverCloses(c, o);
      }
    } else {
      QueueKeeps(c, r, p);
    }
  }

  lemma SendAckRests(c: Context, r: State)
    requires Inv(c, r)
    ensures Inv(c, SendAck(Unbounded, r)) && Later(r, SendAck(Unbounded, r))
  {
    hide Wire, Core, SendAck, Heap.Ordered;
    SendAckKeeps(c, r);
  }

  lemma ReadKeeps(c: Context, r: State)
    requires Inv(c, r)
    ensures var o := Read(r); Inv(c, o) && Later(r, o) && Delivered(o) == Delivered(r)
  {
    hide PrefixOf, AcksOk, AllQueued;
    if |r.ready| > 0 {
      assert r.taken + (r.ready[0] + Flat(r.ready[1..])) == (r.taken + r.ready[0]) + Flat(r.ready[1..]);
    }
  }
}
