/** The receiver with uint32 sequence numbers is the image, modulo 2^32, of the receiver with
  * unbounded ones: every routine commutes with wrapping, in every state.
  */
module WrapReceiver {
  import opened Packets
  import opened Seqnum
  import opened Receiver
  import Heap
  import Sack

  function Map<T, U>(f: T -> U, s: seq<T>): (r: seq<U>)
    ensures |r| == |s|
    ensures forall i :: 0 <= i < |s| ==> r[i] == f(s[i])
  {
    seq(|s|, i requires 0 <= i < |s| => f(s[i]))
  }

  function WrapPacket(p: Packet): Packet {
    p.(num := Wire(p.num))
  }

  function WrapAck(a: Ack): Ack {
    a.(number := Wire(a.number))
  }

  function WrapBlock(b: Sack.Block): Sack.Block {
    Sack.Block(Wire(b.start), Wire(b.end))
  }

  function WrapRcv(r: State): State {
    r.(nxt := Wire(r.nxt), acc := Wire(r.acc), pending := Map(WrapPacket, r.pending),
       sack := Map(WrapBlock, r.sack), acks := Map(WrapAck, r.acks))
  }

  // ----- sequences

  lemma MapAppend<T, U>(f: T -> U, a: seq<T>, b: seq<T>)
    ensures Map(f, a + b) == Map(f, a) + Map(f, b)
  {
  }

  lemma MapSlice<T, U>(f: T -> U, s: seq<T>, i: nat, j: nat)
    requires i <= j <= |s|
    ensures Map(f, s[i..j]) == Map(f, s)[i..j]
    ensures Map(f, s[i..]) == Map(f, s)[i..]
    ensures Map(f, s[..j]) == Map(f, s)[..j]
  {
  }

  lemma MapUpdate<T, U>(f: T -> U, s: seq<T>, i: nat, x: T)
    requires i < |s|
    ensures Map(f, s[i := x]) == Map(f, s)[i := f(x)]
  {
  }

  // ----- the heap

  ghost predicate SameOrder<T(!new), U>(less: (T, T) -> bool, less': (U, U) -> bool, f: T -> U) {
    forall a, b :: less(a, b) == less'(f(a), f(b))
  }

  lemma SwapMaps<T, U>(f: T -> U, h: seq<T>, i: nat, j: nat)
    requires i < |h| && j < |h|
    ensures Map(f, Heap.Swap(h, i, j)) == Heap.Swap(Map(f, h), i, j)
  {
  }

  lemma {:induction false} UpMaps<T(!new), U>(less: (T, T) -> bool, less': (U, U) -> bool, f: T -> U, h: seq<T>, j: nat)
    requires SameOrder(less, less', f) && j < |h|
    ensures Map(f, Heap.Up(less, h, j)) == Heap.Up(less', Map(f, h), j)
    decreases j
  {
    if j > 0 {
      var p := (j - 1) / 2;
      assert less(h[j], h[p]) == less'(Map(f, h)[j], Map(f, h)[p]);
      if less(h[j], h[p]) {
        SwapMaps(f, h, p, j);
        UpMaps(less, less', f, Heap.Swap(h, p, j), p);
      }
    }
  }

  lemma {:induction false} DownMaps<T(!new), U>(less: (T, T) -> bool, less': (U, U) -> bool, f: T -> U, h: seq<T>,
    i: nat, n: nat)
    requires SameOrder(less, less', f) && n <= |h|
    ensures Map(f, Heap.Down(less, h, i, n)) == Heap.Down(less', Map(f, h), i, n)
    decreases n - i
  {
    if 2 * i + 1 < n {
      var g := Map(f, h);
      assert 2 * i + 2 < n ==> less(h[2 * i + 2], h[2 * i + 1]) == less'(g[2 * i + 2], g[2 * i + 1]);
      var j := Heap.SmallerChild(less, h, i, n);
      assert j == Heap.SmallerChild(less', g, i, n);
      assert less(h[j], h[i]) == less'(g[j], g[i]);
      if less(h[j], h[i]) {
        SwapMaps(f, h, i, j);
        DownMaps(less, less', f, Heap.Swap(h, i, j), j, n);
      }
    }
  }

  lemma PacketsSameOrder()
    ensures SameOrder(Less, Less, WrapPacket)
  {
    forall a: Packet, b: Packet
      ensures Less(a, b) == Less(WrapPacket(a), WrapPacket(b))
    {
      TestsOnWire(a.num, b.num);
    }
  }

  lemma PushWraps(h: seq<Packet>, p: Packet)
    ensures Map(WrapPacket, Heap.Push(Less, h, p)) == Heap.Push(Less, Map(WrapPacket, h), WrapPacket(p))
  {
    hide Less, Wire, Heap.Up;
    PacketsSameOrder();
    MapAppend(WrapPacket, h, [p]);
    assert Map(WrapPacket, [p]) == [WrapPacket(p)];
    UpMaps(Less, Less, WrapPacket, h + [p], |h|);
  }

  lemma RestWraps(h: seq<Packet>)
    requires |h| > 0
    ensures Map(WrapPacket, Heap.Rest(Less, h)) == Heap.Rest(Less, Map(WrapPacket, h))
  {
    hide Less, Wire, Heap.Down;
    PacketsSameOrder();
    var n := |h| - 1;
    SwapMaps(WrapPacket, h, 0, n);
    DownMaps(Less, Less, WrapPacket, Heap.Swap(h, 0, n), 0, n);
    MapSlice(WrapPacket, Heap.Down(Less, Heap.Swap(h, 0, n), 0, n), 0, n);
  }

  // ----- the SACK blocks

  lemma JoinWraps(a: Sack.Block, b: Sack.Block)
    ensures WrapBlock(Sack.Join(a, b)) == Sack.Join(WrapBlock(a), WrapBlock(b))
    ensures Sack.Touches(WrapBlock(a), WrapBlock(b)) == Sack.Touches(a, b)
  {
    hide Wire;
    TestsOnWire(b.start, a.start);
    TestsOnWire(a.end, b.end);
    TestsOnWire(a.start, b.end);
    TestsOnWire(b.start, a.end);
  }

  lemma StaleWraps(b: Sack.Block, nxt: int)
    ensures Sack.Stale(WrapBlock(b), Wire(nxt)) == Sack.Stale(b, nxt)
  {
    hide Wire;
    TestsOnWire(b.end, b.start);
    TestsOnWire(b.start, nxt);
  }

  lemma {:induction false} AbsorbWraps(nb: Sack.Block, blocks: seq<Sack.Block>, nxt: int)
    ensures var (g, kept) := Sack.Absorb(nb, blocks, nxt);
      Sack.Absorb(WrapBlock(nb), Map(WrapBlock, blocks), Wire(nxt)) == (WrapBlock(g), Map(WrapBlock, kept))
    decreases |blocks|
  {
    hide Wire, Sack.Join, Sack.Touches, Sack.Stale, WrapBlock;
    if |blocks| > 0 {
      StaleWraps(blocks[0], nxt);
      JoinWraps(nb, blocks[0]);
      MapSlice(WrapBlock, blocks, 1, |blocks|);
      if Sack.Stale(blocks[0], nxt) {
        AbsorbWraps(nb, blocks[1..], nxt);
      } else if Sack.Touches(nb, blocks[0]) {
        AbsorbWraps(Sack.Join(nb, blocks[0]), blocks[1..], nxt);
      } else {
        AbsorbWraps(nb, blocks[1..], nxt);
        var kept := Sack.Absorb(nb, blocks[1..], nxt).1;
        MapAppend(WrapBlock, [blocks[0]], kept);
        assert Map(WrapBlock, [blocks[0]]) == [WrapBlock(blocks[0])];
      }
    }
  }

  lemma UpdateWraps(blocks: seq<Sack.Block>, start: int, end: int, nxt: int)
    ensures Map(WrapBlock, Sack.Update(blocks, start, end, nxt))
      == Sack.Update(Map(WrapBlock, blocks), Wire(start), Wire(end), Wire(nxt))
  {
    hide Wire, Sack.Absorb;
    var nb := Sack.Block(start, end);
    AbsorbWraps(nb, blocks, nxt);
    var (g, kept) := Sack.Absorb(nb, blocks, nxt);
    TestsOnWire(nxt, g.start);
    var tail := if |kept| == Sack.MAX_BLOCKS then kept[..Sack.MAX_BLOCKS - 1] else kept;
    MapAppend(WrapBlock, [g], tail);
    assert Map(WrapBlock, [g]) == [WrapBlock(g)];
    if |kept| == Sack.MAX_BLOCKS {
      MapSlice(WrapBlock, kept, 0, Sack.MAX_BLOCKS - 1);
    }
  }

  lemma {:induction false} TrimWraps(blocks: seq<Sack.Block>, nxt: int)
    ensures Map(WrapBlock, Sack.Trim(blocks, nxt)) == Sack.Trim(Map(WrapBlock, blocks), Wire(nxt))
    decreases |blocks|
  {
    hide Wire;
    if |blocks| > 0 {
      var b := blocks[0];
      TestsOnWire(b.end, nxt);
      TestsOnWire(b.start, nxt);
      MapSlice(WrapBlock, blocks, 1, |blocks|);
      TrimWraps(blocks[1..], nxt);
      if !LessThanEq(b.end, nxt) {
        var c := if LessThan(b.start, nxt) then b.(start := nxt) else b;
        MapAppend(WrapBlock, [c], Sack.Trim(blocks[1..], nxt));
        assert Map(WrapBlock, [c]) == [WrapBlock(c)];
      }
    }
  }

  // ----- the receiver's routines

  lemma TestsShifted(v: int, w: int, k: int)
    ensures Eq(Wire(v) + k, Wire(w)) == Eq(v + k, w)
    ensures LessThan(Wire(v) + k, Wire(w)) == LessThan(v + k, w)
    ensures LessThan(Wire(v), Wire(w) + k) == LessThan(v, w + k)
    ensures Size(Wire(v), Wire(w) + k) == Size(v, w + k)
    ensures Size(Wire(v) + k, Wire(w)) == Size(v + k, w)
  {
    hide Wire;
    WireCongruent(v, k);
    WireCongruent(w, k);
    TestsOnWire(v + k, w);
    TestsOnWire(v, w + k);
    TestsOnWire(Wire(v) + k, Wire(w));
    TestsOnWire(Wire(v), Wire(w) + k);
    WireCongruent(v, 0);
    WireCongruent(w, 0);
  }

  lemma AddWraps(v: int, k: int)
    ensures Add(Uint32, Wire(v), k) == Wire(Add(Unbounded, v, k))
  {
    hide Wire;
    AddOnWire(v, k);
  }

  lemma AcceptableWraps(r: State, num: int, len: nat)
    ensures Acceptable(WrapRcv(r), Wire(num), len) == Acceptable(r, num, len)
  {
    hide Wire, LessThan;
    var wnd := Size(r.nxt, r.acc);
    TestsOnWire(r.nxt, r.acc);
    TestsOnWire(num, r.nxt);
    TestsOnWire(r.nxt, num);
    TestsShifted(r.nxt, r.nxt, wnd);
    TestsShifted(r.nxt, num, len);
    TestsShifted(num, r.nxt, wnd);
    EqOnWire(num, r.nxt);
  }

  lemma EqOnWire(v: int, w: int)
    ensures Eq(Wire(v), Wire(w)) == Eq(v, w)
  {
    hide Wire;
    TestsOnWire(v, w);
  }

  lemma OpenWindowWraps(r: State)
    ensures WrapRcv(OpenWindow(Unbounded, r)) == OpenWindow(Uint32, WrapRcv(r))
  {
    hide Wire, LessThan;
    AddWraps(r.nxt, Available(r));
    TestsOnWire(r.acc, Add(Unbounded, r.nxt, Available(r)));
  }

  lemma SendAckWraps(r: State)
    ensures WrapRcv(SendAck(Unbounded, r)) == SendAck(Uint32, WrapRcv(r))
  {
    hide Wire, OpenWindow;
    OpenWindowWraps(r);
    var o := OpenWindow(Unbounded, r);
    TestsOnWire(o.nxt, o.acc);
    var a := Ack(o.nxt, Advertised(o));
    MapAppend(WrapAck, o.acks, [a]);
    assert Map(WrapAck, [a]) == [WrapAck(a)];
  }

  lemma ConsumableWraps(r: State, p: Packet)
    ensures Consumable(WrapRcv(r), WrapPacket(p)) == Consumable(r, p)
    ensures Passed(WrapRcv(r), WrapPacket(p)) == Passed(r, p)
  {
    hide Wire;
    TestsOnWire(p.num, r.nxt);
    TestsShifted(p.num, p.num, |p.data|);
    TestsShifted(p.num, r.nxt, |p.data| - 1);
  }

  lemma FreshWraps(r: State, p: Packet)
    ensures WrapPacket(Fresh(Unbounded, r, p)) == Fresh(Uint32, WrapRcv(r), WrapPacket(p))
    ensures Fresh(Unbounded, r, p).data == Fresh(Uint32, WrapRcv(r), WrapPacket(p)).data
  {
    hide Wire;
    TestsOnWire(p.num, r.nxt);
    AddWraps(p.num, Size(p.num, r.nxt));
  }

  lemma AdvanceWraps(r: State, p: Packet, t: Packet)
    ensures WrapRcv(Advance(Unbounded, r, p, t)) == Advance(Uint32, WrapRcv(r), WrapPacket(p), WrapPacket(t))
  {
    hide Wire, Sack.Trim;
    AddWraps(t.num, |t.data|);
    var d := Deliver(r, p, t);
    TrimWraps(d.sack, Add(Unbounded, t.num, |t.data|));
  }

  lemma CloseWraps(r: State, queued: bool)
    ensures WrapRcv(Close(Unbounded, r, queued)) == Close(Uint32, WrapRcv(r), queued)
  {
    hide Wire, SendAck;
    AddWraps(r.nxt, 1);
    SendAckWraps(r.(nxt := Add(Unbounded, r.nxt, 1)));
    var f := SendAck(Unbounded, r.(nxt := Add(Unbounded, r.nxt, 1)));
    if |f.pending| > 0 {
      MapSlice(WrapPacket, f.pending, 0, 1);
    }
    assert Map(WrapPacket, []) == [];
  }

  lemma ConsumeWraps(r: State, p: Packet, queued: bool)
    ensures WrapRcv(Consume(Unbounded, r, p, queued)) == Consume(Uint32, WrapRcv(r), WrapPacket(p), queued)
  {
    hide Wire, WrapRcv, Fresh, Advance, Close;
    FreshWraps(r, p);
    AdvanceWraps(r, p, Fresh(Unbounded, r, p));
    CloseWraps(Advance(Unbounded, r, p, Fresh(Unbounded, r, p)), queued);
  }

  lemma PopRootWraps(r: State)
    requires |r.pending| > 0
    ensures WrapRcv(PopRoot(r)) == PopRoot(WrapRcv(r))
  {
    hide Wire, Heap.Rest, Less;
    RestWraps(r.pending);
  }

  lemma WrapPending(r: State, p: Packet)
    requires |r.pending| > 0
    ensures WrapRcv(r.(pending := r.pending[0 := p])) == WrapRcv(r).(pending := WrapRcv(r).pending[0 := WrapPacket(p)])
    ensures |WrapRcv(r).pending| == |r.pending| && WrapRcv(r).pending[0] == WrapPacket(r.pending[0])
  {
    hide Wire;
    MapUpdate(WrapPacket, r.pending, 0, p);
  }

  lemma KeepsQueue(w: Width, r: State, p: Packet)
    requires |r.pending| > 0
    ensures |Consume(w, r, p, true).pending| > 0
  {
    hide Wire;
  }

  lemma DrainOneWraps(r: State)
    requires |r.pending| > 0
    ensures WrapRcv(DrainOne(Unbounded, r)) == DrainOne(Uint32, WrapRcv(r))
  {
    hide Wire, WrapRcv, WrapPacket, PopRoot, Consume, Fresh, Passed, Consumable;
    var p := r.pending[0];
    WrapPending(r, p);
    ConsumableWraps(r, p);
    if Passed(r, p) {
      PopRootWraps(r);
    } else {
      var t := Fresh(Unbounded, r, p);
      FreshWraps(r, p);
      WrapPending(r, t);
      var q := r.(pending := r.pending[0 := t]);
      ConsumeWraps(q, p, true);
      KeepsQueue(Unbounded, q, p);
      PopRootWraps(Consume(Unbounded, q, p, true));
    }
  }

  lemma {:induction false} DrainWraps(r: State)
    ensures WrapRcv(Drain(Unbounded, r)) == Drain(Uint32, WrapRcv(r))
    decreases |r.pending|
  {
    hide Wire, WrapRcv, WrapPacket, DrainOne, Passed, Consumable;
    WrapFlags(r);
    if !r.closed && |r.pending| > 0 {
      WrapPending(r, r.pending[0]);
      ConsumableWraps(r, r.pending[0]);
      if Passed(r, r.pending[0]) || Consumable(r, r.pending[0]) {
        DrainOneWraps(r);
        DrainShrinks(r);
        DrainWraps(DrainOne(Unbounded, r));
      }
    }
  }

  lemma WrapFlags(r: State)
    ensures WrapRcv(r).closed == r.closed && |WrapRcv(r).pending| == |r.pending|
  {
  }

  lemma DrainShrinks(r: State)
    requires |r.pending| > 0
    ensures |DrainOne(Unbounded, r).pending| < |r.pending|
  {
    hide Wire;
  }

  lemma QueueWraps(r: State, p: Packet)
    ensures WrapRcv(Queue(Unbounded, r, p)) == Queue(Uint32, WrapRcv(r), WrapPacket(p))
  {
    hide Wire, Heap.Push, Sack.Update, SendAck, Less;
    if |p.data| > 0 || p.fin {
      AddWraps(p.num, |p.data|);
      PushWraps(r.pending, p);
      var sack := Sack.Update(r.sack, p.num, Add(Unbounded, p.num, |p.data|), r.nxt);
      UpdateWraps(r.sack, p.num, Add(Unbounded, p.num, |p.data|), r.nxt);
      SendAckWraps(Store(r, p).(sack := sack));
      assert WrapRcv(Store(r, p).(sack := sack)) == Store(WrapRcv(r), WrapPacket(p)).(sack := Map(WrapBlock, sack));
    }
  }

  /** handleRcvdSegment on uint32 numbers, in every state and for every segment. */
  lemma HandleWraps(r: State, p: Packet)
    ensures WrapRcv(Handle(Unbounded, r, p)) == Handle(Uint32, WrapRcv(r), WrapPacket(p))
  {
    hide Wire, WrapRcv, Acceptable, Consumable, Consume, Drain, Queue, SendAck;
    WrapFlags(r);
    AcceptableWraps(r, p.num, |p.data|);
    ConsumableWraps(r, p);
    if r.closed {
    } else if !Acceptable(r, p.num, |p.data|) {
      SendAckWraps(r);
    } else if Consumable(r, p) {
      ConsumeWraps(r, p, false);
      DrainWraps(Consume(Unbounded, r, p, false));
    } else {
      QueueWraps(r, p);
    }
  }

  lemma ReadWraps(r: State)
    ensures WrapRcv(Read(r)) == Read(WrapRcv(r))
  {
  }
}
