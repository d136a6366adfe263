/** What the receiver must do, where the invariants only say what it may: deliver what is in
  * order, keep what is not, and answer.
  */
module ReceiverProgress {
  import opened Packets
  import opened Seqnum
  import opened Receiver
  import opened ReceiverProofs
  import Heap
  import Sack

  ghost predicate AllBeyondNext(r: State) {
    forall p :: p in multiset(r.pending) ==> r.nxt < p.num
  }

  /** A segment inside the window that reaches the next expected number is delivered at once, with
    * everything queued that it connects to: what stays queued lies beyond a gap. */
  lemma Delivers(c: Context, r: State, p: Packet)
    requires Inv(c, r) && !r.closed && Genuine(c, p) && r.nxt < r.acc
    requires if |p.data| > 0 then p.num <= r.nxt < p.num + |p.data| && r.nxt - p.num < HALF else p.num == r.nxt
    ensures var o := Handle(Unbounded, r, p);
      && o.nxt >= p.End() && |Delivered(o)| >= p.num + |p.data| - c.base
      && (!o.closed ==> AllBeyondNext(o))
  {
    hide Wire, AcksOk, AllQueued, PrefixOf, Flat, Consumable, Acceptable, Drain, Consume, Queue, SendAck;
    AcceptableExact(c, r, p);
    ConsumableExact(c, r, p);
    ConsumeKeeps(c, r, p, false);
    DrainKeeps(c, Consume(Unbounded, r, p, false));
  }

  /** One beyond a gap is kept while the queue has room, acknowledged at once with the next expected
    * number, and delivers nothing. */
  lemma Queues(c: Context, r: State, p: Packet)
    requires Inv(c, r) && !r.closed && Genuine(c, p) && r.nxt < p.num < r.acc && p.LogicalLen() > 0 && AllBeyondNext(r)
    ensures var o := Handle(Unbounded, r, p);
      && o.nxt == r.nxt && Delivered(o) == Delivered(r) && AllBeyondNext(o)
      && |o.acks| == |r.acks| + 1 && o.acks[|r.acks|].number == r.nxt
      && (r.pendingUsed < r.pendingSize ==>
            multiset(o.pending) == multiset(r.pending) + multiset{p} && o.pendingUsed == r.pendingUsed + p.LogicalLen())
  {
    hide Wire, AcksOk, AllQueued, PrefixOf, Flat, Consumable, Acceptable, Store, SendAck, Sack.Update, Heap.Ordered;
    AcceptableExact(c, r, p);
    ConsumableExact(c, r, p);
    var sack := Sack.Update(r.sack, p.num, p.num + |p.data|, r.nxt);
    StoreKeeps(c, r, p, sack);
    Stored(r, p);
    SendAckKeeps(c, Store(r, p).(sack := sack));
  }

  lemma Stored(r: State, p: Packet)
    ensures var o := Store(r, p);
      && o == r.(pending := o.pending, pendingUsed := o.pendingUsed)
      && (r.pendingUsed < r.pendingSize ==>
            multiset(o.pending) == multiset(r.pending) + multiset{p} && o.pendingUsed == r.pendingUsed + p.LogicalLen())
  {
    hide Heap.Up, Less;
  }

  /** Anything outside the window is answered with the next expected number, and changes nothing
    * but the window's edge. */
  lemma Refuses(c: Context, r: State, p: Packet)
    requires Inv(c, r) && !r.closed && !Acceptable(r, p.num, |p.data|)
    ensures var o := Handle(Unbounded, r, p);
      && o == r.(acc := o.acc, acks := o.acks) && r.acc <= o.acc
      && |o.acks| == |r.acks| + 1 && o.acks[|r.acks|].number == r.nxt
  {
    hide Wire, AcksOk, AllQueued, PrefixOf, Flat, Acceptable, SendAck;
    SendAckKeeps(c, r);
  }

  /** Reading makes the room it frees available: nothing read is lost, and the next acknowledgement
    * offers the whole free buffer. */
  lemma ReadOpens(c: Context, r: State)
    requires Inv(c, r) && r.bufUsed > 0
    ensures var o := Read(r); var n := |o.taken| - |r.taken|;
      && Delivered(o) == Delivered(r) && r.taken <= o.taken && o.bufUsed == r.bufUsed - n
      && SendAck(Unbounded, o).acc >= o.nxt + Available(o) && Available(o) >= Available(r)
  {
    hide Wire, PrefixOf, AcksOk, AllQueued;
    ReadKeeps(c, r);
    OpenWindowExact(c, Read(r));
  }
}
