/** The receiver as the object that protocol/transport/tcp/rcv.go makes of it, with the
  * endpoint's receive list: methods that update fields, each proved to do exactly what the
  * corresponding function of module Receiver says, on uint32 sequence numbers.
  */
module ReceiverObject {
  import opened Packets
  import opened Seqnum
  import R = Receiver
  import Heap
  import Sack

  class Receiver {
    var rcvNxt: int
    var rcvAcc: int
    const rcvWndScale: nat
    var closed: bool
    var pendingRcvdSegments: seq<Packet>
    var pendingBufUsed: int
    const pendingBufSize: int
    const sack: Sack.SackInfo
    var rcvList: seq<seq<byte>>
    var rcvBufUsed: int
    const rcvBufSize: int
    var rcvClosed: bool
    ghost var taken: seq<byte>
    ghost var acks: seq<Ack>

    ghost predicate Valid()
      reads this, sack, sack.blocks
    {
      sack.Valid()
    }

    ghost function State(): R.State
      requires Valid()
      reads this, sack, sack.blocks
    {
      R.State(rcvNxt, rcvAcc, rcvWndScale, closed, pendingRcvdSegments, pendingBufUsed, pendingBufSize, sack.Blocks(),
              taken, rcvList, rcvBufUsed, rcvBufSize, rcvClosed, acks)
    }

    constructor (irs: int, rcvWnd: nat, scale: nat)
      ensures Valid() && fresh(sack) && fresh(sack.blocks)
      ensures State() == R.State(Add(Uint32, irs, 1), Add(Uint32, irs, rcvWnd + 1), scale, false, [], 0, rcvWnd, [],
                                 [], [], 0, rcvWnd, false, [])
    {
      rcvNxt, rcvAcc, rcvWndScale := Add(Uint32, irs, 1), Add(Uint32, irs, rcvWnd + 1), scale;
      closed, rcvClosed := false, false;
      pendingRcvdSegments, pendingBufUsed, pendingBufSize := [], 0, rcvWnd;
      sack := new Sack.SackInfo();
      rcvList, rcvBufUsed, rcvBufSize := [], 0, rcvWnd;
      taken, acks := [], [];
    }

    method Acceptable(segSeq: int, segLen: nat) returns (ok: bool)
      requires Valid()
      ensures ok == R.Acceptable(State(), segSeq, segLen)
    {
      hide Wire;
      var rcvWnd := Size(rcvNxt, rcvAcc);
      if rcvWnd == 0 {
        return segLen == 0 && Eq(segSeq, rcvNxt);
      }
      return InWindow(segSeq, rcvNxt, rcvWnd) || Overlap(rcvNxt, rcvWnd, segSeq, segLen);
    }

    method GetSendParams() returns (nxt: int, wnd: nat)
      requires Valid()
      modifies this`rcvAcc
      ensures Valid() && State() == R.OpenWindow(Uint32, old(State()))
      ensures nxt == rcvNxt && wnd == Shr(Size(rcvNxt, rcvAcc), rcvWndScale)
    {
      hide Add, LessThan, Shr, Size;
      var n := if rcvBufUsed >= rcvBufSize then 0 else rcvBufSize - rcvBufUsed;
      var acc := Add(Uint32, rcvNxt, n);
      if LessThan(rcvAcc, acc) {
        rcvAcc := acc;
      }
      nxt, wnd := rcvNxt, Shr(Size(rcvNxt, rcvAcc), rcvWndScale);
    }

    /** The acknowledgement half of sendSegment, with sendTCP's clamp of the window. */
    method SendAck()
      requires Valid()
      modifies this`rcvAcc, this`acks
      ensures Valid() && State() == R.SendAck(Uint32, old(State()))
    {
      hide R.OpenWindow, Shr, Size;
      var nxt, wnd := GetSendParams();
      if wnd > MAX_WINDOW {
        wnd := MAX_WINDOW;
      }
      assert wnd == R.Advertised(State());
      acks := acks + [Ack(nxt, wnd)];
    }

    /** The FIN of the segment being consumed. */
    method CloseReceiver(queued: bool)
      requires Valid()
      modifies this
      ensures Valid() && State() == R.Close(Uint32, old(State()), queued)
    {
      hide Add, R.SendAck;
      rcvNxt := Add(Uint32, rcvNxt, 1);
      SendAck();
      FinishClose(queued);
    }

    method FinishClose(queued: bool)
      modifies this`closed, this`rcvClosed, this`pendingRcvdSegments
      ensures closed && rcvClosed
      ensures pendingRcvdSegments ==
        if queued && |old(pendingRcvdSegments)| > 0 then old(pendingRcvdSegments)[..1] else []
    {
      closed := true;
      rcvClosed := true;
      var first := 0;
      if |pendingRcvdSegments| != 0 && queued {
        first := 1;
      }
      pendingRcvdSegments := pendingRcvdSegments[..first];
    }

    /** readyToRead, of a segment whose payload is s. */
    method ReadyToRead(data: seq<byte>)
      modifies this`rcvList, this`rcvBufUsed
      ensures rcvList == old(rcvList) + [data] && rcvBufUsed == old(rcvBufUsed) + |data|
    {
      rcvBufUsed := rcvBufUsed + |data|;
      rcvList := rcvList + [data];
    }

    /** The segment's payload is taken: what is left of the segment, and rcvNxt and the SACK
      * blocks after it. */
    method TakePayload(s: Packet) returns (t: Packet)
      requires Valid()
      modifies this`rcvList, this`rcvBufUsed, this`rcvNxt, sack`numBlocks, sack.blocks
      ensures Valid() && t == R.Fresh(Uint32, old(State()), s)
      ensures State() == R.Advance(Uint32, old(State()), s, t)
    {
      hide Add, Size, LessThan, Sack.Trim;
      t := s;
      if |s.data| > 0 {
        if LessThan(s.num, rcvNxt) {
          var diff := Size(s.num, rcvNxt);
          t := t.(num := Add(Uint32, s.num, diff), data := Drop(s.data, diff));
        }
        ReadyToRead(t.data);
      }
      rcvNxt := Add(Uint32, t.num, |t.data|);
      sack.TrimSackBlockList(rcvNxt);
    }

    /** consumeSegment; queued: s is the root of the heap, and what is trimmed of it is trimmed
      * there. */
    method ConsumeSegment(s: Packet, queued: bool) returns (consumed: bool)
      requires Valid() && (queued ==> |pendingRcvdSegments| > 0)
      modifies this, sack, sack.blocks
      ensures Valid() && consumed == R.Consumable(old(State()), s)
      ensures State() ==
        if !consumed then old(State())
        else R.Consume(Uint32,
          if queued then old(State()).(
            pending := old(pendingRcvdSegments)[0 := R.Fresh(Uint32, old(State()), s)])
          else old(State()), s, queued)
    {
      hide Add, InWindow, Eq, R.Fresh, R.Advance, R.Close;
      if |s.data| > 0 {
        if !InWindow(rcvNxt, s.num, |s.data|) {
          return false;
        }
      } else if !Eq(s.num, rcvNxt) {
        return false;
      }
      ghost var r := State();
      var t := TakePayload(s);
      if queued {
        pendingRcvdSegments := pendingRcvdSegments[0 := t];
        RootAside(r, s, t);
      }
      assert State() == R.Advance(Uint32, if queued then r.(pending := r.pending[0 := t]) else r, s, t);
      RootUnread(r, s, t);
      if s.fin {
        CloseReceiver(queued);
      }
      return true;
    }

    /** Taking a payload neither reads nor writes the heap. */
    static lemma RootAside(r: R.State, s: Packet, t: Packet)
      requires |r.pending| > 0
      ensures R.Advance(Uint32, r.(pending := r.pending[0 := t]), s, t)
        == R.Advance(Uint32, r, s, t).(pending := r.pending[0 := t])
      ensures R.Advance(Uint32, r, s, t).pending == r.pending
    {
      hide Add, Sack.Trim;
    }

    static lemma RootUnread(r: R.State, s: Packet, t: Packet)
      ensures |r.pending| > 0 ==> R.Fresh(Uint32, r.(pending := r.pending[0 := t]), s) == R.Fresh(Uint32, r, s)
    {
      hide Add;
    }

    /** heap.Pop, and the count after it. */
    method PopRoot()
      requires Valid() && |pendingRcvdSegments| > 0
      modifies this`pendingRcvdSegments, this`pendingBufUsed
      ensures Valid() && State() == R.PopRoot(old(State()))
    {
      hide Heap.Rest;
      var s := pendingRcvdSegments[0];
      pendingRcvdSegments := Heap.Rest(R.Less, pendingRcvdSegments);
      pendingBufUsed := pendingBufUsed - s.LogicalLen();
    }

    method Queue(s: Packet)
      requires Valid()
      modifies this, sack, sack.blocks
      ensures Valid() && State() == R.Queue(Uint32, old(State()), s)
    {
      hide Add, Heap.Push, Sack.Update, R.SendAck;
      if |s.data| > 0 || s.fin {
        Store(s);
        sack.UpdateSackBlocks(s.num, Add(Uint32, s.num, |s.data|), rcvNxt);
        assert State() == R.Store(old(State()), s).(
          sack := Sack.Update(old(State()).sack, s.num, Add(Uint32, s.num, |s.data|), old(rcvNxt)));
        SendAck();
      }
    }

    method Store(s: Packet)
      modifies this`pendingRcvdSegments, this`pendingBufUsed
      ensures if old(pendingBufUsed) < pendingBufSize
        then pendingBufUsed == old(pendingBufUsed) + s.LogicalLen()
             && pendingRcvdSegments == Heap.Push(R.Less, old(pendingRcvdSegments), s)
        else pendingBufUsed == old(pendingBufUsed) && pendingRcvdSegments == old(pendingRcvdSegments)
    {
      hide Heap.Push;
      if pendingBufUsed < pendingBufSize {
        pendingBufUsed := pendingBufUsed + s.LogicalLen();
        pendingRcvdSegments := Heap.Push(R.Less, pendingRcvdSegments, s);
      }
    }

    method HandleRcvdSegment(s: Packet)
      requires Valid()
      modifies this, sack, sack.blocks
      ensures Valid() && State() == R.Handle(Uint32, old(State()), s)
    {
      hide R.Acceptable, R.SendAck, R.Consume, R.Consumable, R.Queue, R.Drain;
      if closed {
        return;
      }
      var ok := Acceptable(s.num, |s.data|);
      if !ok {
        SendAck();
        return;
      }
      var consumed := ConsumeSegment(s, false);
      if !consumed {
        Queue(s);
        return;
      }
      Drain();
    }

    /** The loop over the queued segments at the end of handleRcvdSegment. */
    method Drain()
      requires Valid()
      modifies this, sack, sack.blocks
      ensures Valid() && State() == R.Drain(Uint32, old(State()))
    {
      hide R.Consume, R.Consumable, R.Passed, R.DrainOne;
      while !closed && |pendingRcvdSegments| > 0
        invariant Valid() && R.Drain(Uint32, State()) == R.Drain(Uint32, old(State()))
        decreases |pendingRcvdSegments|
      {
        ghost var r := State();
        DrainShrinks(r);
        var on := DrainNext();
        if !on {
          break;
        }
      }
    }

    static lemma DrainShrinks(r: R.State)
      requires |r.pending| > 0
      ensures |R.DrainOne(Uint32, r).pending| < |r.pending|
    {
      hide Wire;
    }

    /** One turn of that loop; false when the root has to wait. */
    method DrainNext() returns (on: bool)
      requires Valid() && |pendingRcvdSegments| > 0
      modifies this, sack, sack.blocks
      ensures Valid()
      ensures var r := old(State()); on == (R.Passed(r, r.pending[0]) || R.Consumable(r, r.pending[0]))
      ensures State() == if on then R.DrainOne(Uint32, old(State())) else old(State())
    {
      hide LessThan, R.Consume, R.Consumable, R.PopRoot, R.Fresh;
      var s := pendingRcvdSegments[0];
      if !LessThan(s.num + |s.data| - 1, rcvNxt) {
        var consumed := ConsumeSegment(s, true);
        if !consumed {
          return false;
        }
        KeepsRoot(old(State()), s);
      }
      PopRoot();
      return true;
    }

    static lemma KeepsRoot(r: R.State, s: Packet)
      requires |r.pending| > 0
      ensures var q := r.(pending := r.pending[0 := R.Fresh(Uint32, r, s)]); |R.Consume(Uint32, q, s, true).pending| > 0
    {
      hide Wire;
    }

    method Read()
      requires Valid()
      modifies this`taken, this`rcvList, this`rcvBufUsed
      ensures Valid() && State() == R.Read(old(State()))
    {
      if rcvBufUsed == 0 || |rcvList| == 0 {
        return;
      }
      var v := rcvList[0];
      taken := taken + v;
      rcvList := rcvList[1..];
      rcvBufUsed := rcvBufUsed - |v|;
    }
  }
}
