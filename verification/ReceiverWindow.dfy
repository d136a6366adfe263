/** The window the receiver promises, and its SACK blocks, while the peer stays inside it. */
module ReceiverWindow {
  import opened Packets
  import opened Seqnum
  import opened Receiver
  import opened ReceiverProofs
  import Heap
  import Sack

  ghost predicate Arrived(seen: set<Packet>, x: int) {
    exists p :: p in seen && p.num <= x < p.num + |p.data|
  }

  /** The blocks are apart and past the next expected number, and cover only what arrived. */
  ghost predicate SackOk(blocks: seq<Sack.Block>, nxt: int, seen: set<Packet>) {
    Sack.Good(blocks, nxt) && forall x :: Sack.Covered(blocks, x) ==> Arrived(seen, x)
  }

  /** Only data takes room: a FIN may end one past the edge. */
  ghost predicate AllLeftOf(ps: seq<Packet>, acc: int) {
    forall p :: p in multiset(ps) ==> p.num + |p.data| <= acc
  }

  ghost predicate EndsInside(r: State, p: Packet) {
    p.num + |p.data| <= r.acc
  }

  /** No acknowledgement ever sent promised anything beyond the window's right edge. */
  ghost predicate Promised(acks: seq<Ack>, scale: nat, acc: int) {
    forall a :: a in acks ==> a.number + Shl(a.window, scale) <= acc
  }

  /** What is buffered and what is promised fit the receive buffer together. */
  ghost predicate Window(r: State, seen: set<Packet>) {
    r.nxt <= r.acc && Roomy(r, seen)
  }

  /** The same, where rcvNxt may have passed the edge over a FIN. */
  ghost predicate Roomy(r: State, seen: set<Packet>) {
    && r.bufUsed <= r.bufSize
    && r.bufUsed + (r.acc - r.nxt) <= r.bufSize
    && AllLeftOf(r.pending, r.acc)
    && Promised(r.acks, r.scale, r.acc)
    && (!r.closed ==> SackOk(r.sack, r.nxt, seen))
  }

  // ----- acknowledgements

  /** The advertised window, scaled and cut to 16 bits, is never more than the real one. */
  lemma AdvertisedFits(c: Context, r: State)
    requires Core(c, r) && r.nxt <= r.acc
    ensures Shl(Advertised(r), r.scale) <= r.acc - r.nxt
  {
    hide Wire, AllQueued, AcksOk, PrefixOf, Flat, Shl, Shr;
    SizeExact(r.nxt, r.acc);
    ShlShr(r.acc - r.nxt, r.scale);
    ShlMonotone(Advertised(r), Shr(r.acc - r.nxt, r.scale), r.scale, r.scale);
  }

  lemma SendAckWindow(c: Context, r: State, seen: set<Packet>)
    requires Core(c, r) && Roomy(r, seen)
    ensures Window(SendAck(Unbounded, r), seen)
  {
    hide Wire, AllQueued, AcksOk, PrefixOf, Flat, Shl, Shr, Advertised, SackOk, OpenWindow;
    OpenWindowExact(c, r);
    var o := OpenWindow(Unbounded, r);
    AdvertisedFits(c, o);
    forall a | a in o.acks + [Ack(o.nxt, Advertised(o))]
      ensures a.number + Shl(a.window, r.scale) <= o.acc
    {
      if a in r.acks {
      } else {
        assert a == Ack(o.nxt, Advertised(o));
      }
    }
  }

  // ----- consuming and draining

  lemma AdvanceWindow(c: Context, r: State, p: Packet, seen: set<Packet>)
    requires Next(c, r, p) && Window(r, seen) && p.num + |p.data| <= r.acc
    ensures Window(Advance(Unbounded, r, p, Fresh(Unbounded, r, p)), seen)
  {
    hide Wire, AllQueued, AcksOk, PrefixOf, Flat, Fresh, Sack.Trim, Sack.Good, Sack.Covered, Arrived, AllLeftOf,
      Promised;
    FreshExact(c, r, p);
    if !r.closed {
      Sack.TrimKeeps(r.sack, r.nxt, p.num + |p.data|);
    }
  }

  lemma FirstOnly(ps: seq<Packet>, acc: int)
    requires AllLeftOf(ps, acc)
    ensures AllLeftOf([], acc) && (|ps| > 0 ==> AllLeftOf(ps[..1], acc))
  {
    if |ps| > 0 {
      assert ps == ps[..1] + ps[1..];
    }
  }

  lemma CloseWindow(c: Context, r: State, queued: bool, seen: set<Packet>)
    requires Core(c, r) && !r.closed && c.fin && |Delivered(r)| == |c.stream|
    requires r.nxt + 1 in c.ends && r.nxt + 1 <= c.top
    requires Window(r, seen)
    ensures Window(Close(Unbounded, r, queued), seen)
  {
    hide Wire, AllQueued, PrefixOf, Flat, SendAck, Genuine, SackOk, AllLeftOf, Promised;
    var m := r.(nxt := r.nxt + 1, closed := true, rcvClosed := true);
    assert Core(c, m);
    SendAckWindow(c, m, seen);
    SendAckKeeps(c, m);
    SendAckClosed(r.(nxt := r.nxt + 1));
    FirstOnly(r.pending, SendAck(Unbounded, m).acc);
  }

  lemma ConsumeWindow(c: Context, r: State, p: Packet, queued: bool, seen: set<Packet>)
    requires Next(c, r, p) && Window(r, seen) && EndsInside(r, p)
    ensures Window(Consume(Unbounded, r, p, queued), seen)
  {
    hide Wire, AllQueued, AcksOk, PrefixOf, Flat, Fresh, Advance, Close, Window;
    AdvanceKeeps(c, r, p);
    AdvanceWindow(c, r, p, seen);
    if p.fin {
      var n := Advance(Unbounded, r, p, Fresh(Unbounded, r, p));
      KeepsEdge(r, p);
      CloseWindow(c, n, queued, seen);
    }
  }

  lemma KeepsEdge(r: State, p: Packet)
    ensures Advance(Unbounded, r, p, Fresh(Unbounded, r, p)).acc == r.acc
  {
    hide Wire, Fresh;
  }

  lemma PopWindow(c: Context, r: State, seen: set<Packet>)
    requires Core(c, r) && |r.pending| > 0 && Heap.OrderedBelowRoot(Num(), r.pending) && Window(r, seen)
    ensures Window(PopRoot(r), seen)
  {
    hide Wire, Core, Heap.Rest, Less, Heap.Ordered, Heap.OrderedBelowRoot, SackOk, Promised;
    PopKeeps(c, r);
  }

  lemma TrimRootWindow(r: State, t: Packet, seen: set<Packet>)
    requires |r.pending| > 0 && Window(r, seen) && EndsInside(r, t)
    ensures Window(r.(pending := r.pending[0 := t]), seen)
  {
    hide SackOk, Promised;
    var ps := r.pending[0 := t];
    assert multiset(ps) == multiset(r.pending) - multiset{r.pending[0]} + multiset{t};
  }

  lemma DrainOneWindow(c: Context, r: State, seen: set<Packet>)
    requires Core(c, r) && !r.closed && |r.pending| > 0 && Heap.Ordered(Num(), r.pending)
    requires Passed(r, r.pending[0]) || Consumable(r, r.pending[0])
    requires Window(r, seen)
    ensures Window(DrainOne(Unbounded, r), seen)
  {
    hide Wire, AcksOk, PrefixOf, Flat, Passed, Consumable, Fresh, Consume, PopRoot, SackOk, Promised;
    var p := r.pending[0];
    assert p in multiset(r.pending);
    if Passed(r, p) {
      PopWindow(c, r, seen);
    } else {
      PassedExact(c, r, p);
      ConsumableExact(c, r, p);
      FreshExact(c, r, p);
      var t := Fresh(Unbounded, r, p);
      TrimRootKeeps(c, r, t);
      TrimRootWindow(r, t, seen);
      var q := r.(pending := r.pending[0 := t]);
      ConsumeKeeps(c, q, p, true);
      ConsumeWindow(c, q, p, true, seen);
      PopWindow(c, Consume(Unbounded, q, p, true), seen);
    }
  }

  lemma {:induction false} DrainWindow(c: Context, r: State, seen: set<Packet>)
    requires Core(c, r) && Heap.Ordered(Num(), r.pending) && (r.closed ==> r.pending == []) && Window(r, seen)
    ensures Window(Drain(Unbounded, r), seen)
    decreases |r.pending|
  {
    hide Wire, Core, Heap.Ordered, Passed, Consumable, DrainOne, Window;
    if !r.closed && |r.pending| > 0 && (Passed(r, r.pending[0]) || Consumable(r, r.pending[0])) {
      DrainOneKeeps(c, r);
      DrainOneWindow(c, r, seen);
      DrainWindow(c, DrainOne(Unbounded, r), seen);
    }
  }

  // ----- queueing

  /** An out-of-order segment: the blocks take it in, whether or not it is stored. */
  lemma UpdateSack(r: State, p: Packet, seen: set<Packet>)
    requires SackOk(r.sack, r.nxt, seen) && r.nxt < p.num && p.num + |p.data| < r.nxt + HALF
    ensures var b := Sack.Update(r.sack, p.num, p.num + |p.data|, r.nxt);
      && SackOk(b, r.nxt, seen + {p})
      // section 4 of RFC 2018: the first block holds the segment that has just arrived
      && |b| > 0 && b[0].start <= p.num && p.num + |p.data| <= b[0].end
  {
    hide Wire, Sack.Update, Sack.Absorb, Sack.Good;
    Sack.UpdateKeeps(r.sack, p.num, p.num + |p.data|, r.nxt);
    var b := Sack.Update(r.sack, p.num, p.num + |p.data|, r.nxt);
    forall x | Sack.Covered(b, x)
      ensures Arrived(seen + {p}, x)
    {
      Sack.UpdateCovers(r.sack, p.num, p.num + |p.data|, r.nxt, x);
      if p.num <= x < p.num + |p.data| {
        assert p in seen + {p};
      } else {
        assert Sack.Covered(r.sack, x);
        var q :| q in seen && q.num <= x < q.num + |q.data|;
        assert q in seen + {p};
      }
    }
  }

  lemma StoreWindow(c: Context, r: State, p: Packet, sack: seq<Sack.Block>, seen: set<Packet>)
    requires Inv(c, r) && !r.closed && Queued(c, p) && EndsInside(r, p)
    requires Window(r, seen) && SackOk(sack, r.nxt, seen + {p})
    ensures Window(Store(r, p).(sack := sack), seen + {p})
  {
    hide Wire, AcksOk, PrefixOf, Flat, Genuine, Less, Heap.Push, Heap.Ordered, SackOk, Promised;
    PushKeeps(c, r.pending, p);
  }

  lemma QueueWindow(c: Context, r: State, p: Packet, seen: set<Packet>)
    requires Inv(c, r) && !r.closed && Genuine(c, p) && r.nxt < p.num && (p.LogicalLen() > 0 ==> EndsInside(r, p))
    requires Window(r, seen)
    ensures Window(Queue(Unbounded, r, p), seen + {p})
  {
    hide Wire, AcksOk, AllQueued, PrefixOf, Flat, Store, SendAck, Sack.Update, Sack.Good, Heap.Ordered, Promised,
      AllLeftOf, SackOk;
    if |p.data| > 0 || p.fin {
      var sack := Sack.Update(r.sack, p.num, p.num + |p.data|, r.nxt);
      UpdateSack(r, p, seen);
      StoreWindow(c, r, p, sack, seen);
      StoreKeeps(c, r, p, sack);
      SendAckWindow(c, Store(r, p).(sack := sack), seen + {p});
    } else {
      MoreSeen(r, p, seen);
    }
  }

  lemma MoreSeen(r: State, p: Packet, seen: set<Packet>)
    requires Window(r, seen)
    ensures Window(r, seen + {p})
  {
    hide AllLeftOf, Promised, Sack.Good, Sack.Covered;
    if !r.closed {
      forall x | Sack.Covered(r.sack, x)
        ensures Arrived(seen + {p}, x)
      {
        var q :| q in seen && q.num <= x < q.num + |q.data|;
        assert q in seen + {p};
      }
    }
  }

  // ----- the three things a receiver does

  /** handleRcvdSegment of a segment whose data ends inside the window: what is buffered and what is
    * promised still fit the buffer, no promise reaches past the right edge, and the SACK blocks
    * stay sound. */
  lemma HandleWindow(c: Context, r: State, p: Packet, seen: set<Packet>)
    requires Inv(c, r) && Genuine(c, p) && r.nxt - p.num < HALF && Window(r, seen)
    requires p.LogicalLen() > 0 ==> EndsInside(r, p)
    ensures Window(Handle(Unbounded, r, p), seen + {p})
  {
    hide Wire, Window, Roomy, AcksOk, AllQueued, PrefixOf, Flat, Consumable, Acceptable, Drain, Consume, Queue, SendAck;
    MoreSeen(r, p, seen);
    WindowEdge(r, seen + {p});
    if r.closed {
    } else if !Acceptable(r, p.num, |p.data|) {
      SendAckWindow(c, r, seen + {p});
    } else {
      ConsumableExact(c, r, p);
      if Consumable(r, p) {
        ConsumeKeeps(c, r, p, false);
        ConsumeWindow(c, r, p, false, seen + {p});
        DrainWindow(c, Consume(Unbounded, r, p, false), seen + {p});
      } else {
        AcceptableExact(c, r, p);
        QueueWindow(c, r, p, seen);
      }
    }
  }

  lemma WindowEdge(r: State, seen: set<Packet>)
    requires Window(r, seen)
    ensures r.nxt <= r.acc && Roomy(r, seen)
  {
  }

  lemma ReadWindow(r: State, seen: set<Packet>)
    requires Window(r, seen)
    ensures Window(Read(r), seen)
  {
    hide SackOk, Promised, AllLeftOf;
  }
}
