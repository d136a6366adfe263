/** What the receiver offers and keeps, exactly: the window in an acknowledgement is all the room
  * there is, as far as its field can say it; and what arrived early is still reported.
  */
module ReceiverExact {
  import opened Packets
  import opened Seqnum
  import opened Receiver
  import opened ReceiverProofs
  import opened ReceiverProgress
  import Heap
  import Sack
  import S = Sender

  /** Scaling down loses less than one unit. */
  lemma {:induction false} ShrLoses(x: nat, n: nat)
    ensures x < Shl(Shr(x, n) + 1, n)
    decreases n
  {
    if n > 0 {
      ShrLoses(x / 2, n - 1);
    }
  }

  /** The unread room of the receive buffer. */
  function Free(r: State): nat {
    S.Max(0, r.bufSize - r.bufUsed)
  }

  /** An acknowledgement names the next expected number, moves the right edge to the end of the
    * free buffer unless it lies further right already, and offers all up to that edge: no more of
    * the field's units would fit, or the field is full. */
  lemma SendAckExact(c: Context, r: State)
    requires Core(c, r)
    ensures var o := SendAck(Unbounded, r); var n := |r.acks|;
      && o == r.(acc := o.acc, acks := o.acks) && |o.acks| == n + 1 && o.acks[..n] == r.acks
      && o.acc == S.Max(r.acc, r.nxt + Free(r))
      && o.acks[n].number == r.nxt && o.acks[n].window <= 0xffff
      && Shl(o.acks[n].window, r.scale) <= o.acc - r.nxt
      && (o.acks[n].window == 0xffff || o.acc - r.nxt < Shl(o.acks[n].window + 1, r.scale))
  {
    hide Wire, AllQueued, PrefixOf, Flat, OpenWindow, Shl, Shr;
    OpenWindowExact(c, r);
    var o := OpenWindow(Unbounded, r);
    SizeExact(o.nxt, o.acc);
    ShlShr(o.acc - o.nxt, r.scale);
    ShrLoses(o.acc - o.nxt, r.scale);
    if Shr(o.acc - o.nxt, r.scale) > 0xffff {
      ShlMonotone(0xffff, Shr(o.acc - o.nxt, r.scale), r.scale, r.scale);
    }
  }

  /** In terms of the buffer: a full field, or all of the free buffer but less than one unit. */
  lemma OffersFreeBuffer(c: Context, r: State)
    requires Core(c, r)
    ensures var a := SendAck(Unbounded, r).acks[|r.acks|];
      a.window == 0xffff || Free(r) < Shl(a.window + 1, r.scale)
  {
    hide Core, SendAck, Shl;
    SendAckExact(c, r);
  }

  /** The FIN in order is acknowledged at once, with the number after it. */
  lemma FinAcknowledged(c: Context, r: State, p: Packet)
    requires Inv(c, r) && !r.closed && Genuine(c, p) && p.fin && p.num == r.nxt && r.nxt <= r.acc
    ensures var o := Handle(Unbounded, r, p);
      && o.closed && o.rcvClosed && o.nxt == r.nxt + 1 && o.pending == [] && Delivered(o) == Delivered(r)
      && |o.acks| == |r.acks| + 1 && o.acks[|r.acks|].number == r.nxt + 1
  {
    hide Wire, AcksOk, AllQueued, PrefixOf, Flat, Consumable, Acceptable, Advance, SendAck, Fresh, Sack.Trim;
    AcceptableExact(c, r, p);
    ConsumableExact(c, r, p);
    AdvanceKeeps(c, r, p);
    AdvanceEmpty(r, p);
    var n := Advance(Unbounded, r, p, Fresh(Unbounded, r, p));
    CloseKeeps(c, n, false);
    CloseAcks(c, n);
    assert Handle(Unbounded, r, p) == Close(Unbounded, n, false);
  }

  lemma AdvanceEmpty(r: State, p: Packet)
    requires p.data == [] && p.num == r.nxt
    ensures var n := Advance(Unbounded, r, p, Fresh(Unbounded, r, p));
      n == r.(sack := n.sack) && Delivered(n) == Delivered(r)
  {
    hide Wire;
  }

  lemma CloseAcks(c: Context, r: State)
    requires Core(c, r)
    ensures var o := Close(Unbounded, r, false);
      && |o.acks| == |r.acks| + 1 && o.acks[|r.acks|].number == r.nxt + 1 && Delivered(o) == Delivered(r)
  {
    hide Wire, AcksOk, AllQueued, PrefixOf, Flat, Core, OpenWindow;
    OpenWindowLeaves(r.(nxt := r.nxt + 1));
  }

  lemma OpenWindowLeaves(r: State)
    ensures var o := OpenWindow(Unbounded, r); o == r.(acc := o.acc)
  {
    hide Wire;
  }

  // ----- what was reported stays reported

  /** x is reported by a SACK block. */
  ghost predicate Reported(r: State, x: int) {
    Sack.Covered(r.sack, x)
  }

  /** Consuming takes exactly what lies before rcvNxt out of the report. */
  lemma AdvanceReports(r: State, p: Packet, t: Packet, x: int)
    requires Sack.Good(r.sack, r.nxt) && t.num + |t.data| < r.nxt + HALF && r.nxt <= t.num + |t.data|
    ensures var o := Advance(Unbounded, r, p, t); Reported(o, x) <==> Reported(r, x) && x >= o.nxt
  {
    hide Wire, Sack.Trim, Sack.Good, Sack.Covered;
    Sack.TrimKeeps(r.sack, r.nxt, t.num + |t.data|);
  }

  /** An early segment is reported, stored or not, and with it all that was, as long as fewer than
    * six blocks are in use. */
  lemma QueueReports(r: State, p: Packet, x: int)
    requires Sack.Good(r.sack, r.nxt) && r.nxt < p.num && p.num + |p.data| < r.nxt + HALF
    requires p.LogicalLen() > 0 && |r.sack| < 6
    ensures Reported(Queue(Unbounded, r, p), x) <==>
      p.num <= x < p.num + |p.data| || Sack.CoveredLive(r.sack, r.nxt, x)
  {
    hide Wire, SendAck, Store, Sack.Update, Sack.Absorb;
    Sack.UpdateCovers(r.sack, p.num, p.num + |p.data|, r.nxt, x);
    QueueSack(r, p);
  }

  lemma QueueSack(r: State, p: Packet)
    requires p.LogicalLen() > 0
    ensures Queue(Unbounded, r, p).sack == Sack.Update(r.sack, p.num, p.num + |p.data|, r.nxt)
  {
    hide Wire, Sack.Update, Heap.Push, Less;
  }

  // ----- reading

  /** The application takes the first view, whole. */
  lemma ReadExact(r: State)
    requires r.bufUsed > 0 && |r.ready| > 0
    ensures var o := Read(r);
      && o.taken == r.taken + r.ready[0] && o.ready == r.ready[1..] && o.bufUsed == r.bufUsed - |r.ready[0]|
  {
  }

  function Reads(r: State, n: nat): State
    decreases n
  {
    if n == 0 then r else Reads(Read(r), n - 1)
  }

  /** Reading until nothing is left takes all that was delivered. */
  lemma {:induction false} ReadsAll(c: Context, r: State)
    requires Inv(c, r)
    ensures var o := Reads(r, |r.ready|); o.taken == Delivered(r) && o.bufUsed == 0
    decreases |r.ready|
  {
    hide Core, Flat, Delivered;
    ReadKeeps(c, r);
    if |r.ready| == 0 {
      NothingReady(c, r);
    } else if r.bufUsed <= 0 {
      OnlyEmpty(c, r);
      ReadsNothing(r, |r.ready|);
    } else {
      ReadExact(r);
      ReadsAll(c, Read(r));
    }
  }

  lemma NothingReady(c: Context, r: State)
    requires Core(c, r) && |r.ready| == 0
    ensures r.taken == Delivered(r) && r.bufUsed == 0
  {
  }

  lemma OnlyEmpty(c: Context, r: State)
    requires Core(c, r) && r.bufUsed <= 0
    ensures r.taken == Delivered(r) && r.bufUsed == 0
  {
    hide Flat;
  }

  lemma {:induction false} ReadsNothing(r: State, n: nat)
    requires r.bufUsed == 0
    ensures Reads(r, n) == r
    decreases n
  {
    if n > 0 {
      ReadsNothing(r, n - 1);
    }
  }
}
