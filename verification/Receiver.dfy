/** The receiving half of a connection: protocol/transport/tcp/rcv.go, with the parts of
  * endpoint.go it calls (readyToRead, receiveBufferAvailable, readLocked) and the window
  * clamp of sendTCP in connect.go.
  *
  * The routines are functions of the receiver's state and of the width of its sequence
  * numbers; class Receiver performs them step by step.
  */
module Receiver {
  import opened Packets
  import opened Seqnum
  import Heap
  import Sack

  datatype State = State(
    nxt: int,                    // rcvNxt
    acc: int,                    // rcvAcc
    scale: nat,                  // rcvWndScale
    closed: bool,
    pending: seq<Packet>,        // pendingRcvdSegments, in heap order
    pendingUsed: int,            // pendingBufUsed
    pendingSize: int,            // pendingBufSize
    sack: seq<Sack.Block>,       // ep.sack
    taken: seq<byte>,            // what the application has read so far
    ready: seq<seq<byte>>,       // ep.rcvList
    bufUsed: int,                // ep.rcvBufUsed
    bufSize: int,                // ep.rcvBufSize
    rcvClosed: bool,             // ep.rcvClosed
    acks: seq<Ack>)              // acknowledgements sent so far

  /** Every byte given to readyToRead so far, in order. */
  function Delivered(r: State): seq<byte> {
    r.taken + Flat(r.ready)
  }

  function Less(a: Packet, b: Packet): bool {
    LessThan(a.num, b.num)
  }

  predicate Acceptable(r: State, num: int, len: nat) {
    var wnd := Size(r.nxt, r.acc);
    if wnd == 0 then len == 0 && Eq(num, r.nxt)
    else InWindow(num, r.nxt, wnd) || Overlap(r.nxt, wnd, num, len)
  }

  function Available(r: State): nat {
    if r.bufUsed >= r.bufSize then 0 else r.bufSize - r.bufUsed
  }

  /** getSendParams: the right edge of the window moves, never to the left. */
  function OpenWindow(w: Width, r: State): State {
    var acc := Add(w, r.nxt, Available(r));
    if LessThan(r.acc, acc) then r.(acc := acc) else r
  }

  function Advertised(r: State): nat {
    var wnd := Shr(Size(r.nxt, r.acc), r.scale);
    if wnd > MAX_WINDOW then MAX_WINDOW else wnd
  }

  function SendAck(w: Width, r: State): State {
    var o := OpenWindow(w, r);
    o.(acks := o.acks + [Ack(o.nxt, Advertised(o))])
  }

  predicate Consumable(r: State, s: Packet) {
    if |s.data| > 0 then InWindow(r.nxt, s.num, |s.data|) else Eq(s.num, r.nxt)
  }

  /** The segment without the bytes that were already received. */
  function Fresh(w: Width, r: State, s: Packet): Packet {
    if |s.data| > 0 && LessThan(s.num, r.nxt) then
      var diff := Size(s.num, r.nxt);
      s.(num := Add(w, s.num, diff), data := Drop(s.data, diff))
    else s
  }

  function Deliver(r: State, s: Packet, t: Packet): State {
    if |s.data| > 0 then r.(ready := r.ready + [t.data], bufUsed := r.bufUsed + |t.data|) else r
  }

  /** The payload of a consumable segment s, of which t is new. */
  function Advance(w: Width, r: State, s: Packet, t: Packet): State {
    var d := Deliver(r, s, t);
    var nxt := Add(w, t.num, |t.data|);
    d.(nxt := nxt, sack := Sack.Trim(d.sack, nxt))
  }

  /** The FIN: acknowledged at once, and the queue is dropped, but for the segment at the
    * heap's root when that is the one being consumed. */
  function Close(w: Width, r: State, queued: bool): State {
    var f := SendAck(w, r.(nxt := Add(w, r.nxt, 1)));
    f.(closed := true, rcvClosed := true, pending := if queued && |f.pending| > 0 then f.pending[..1] else [])
  }

  /** consumeSegment of a consumable segment s; queued says that s is the heap's root. */
  function Consume(w: Width, r: State, s: Packet, queued: bool): State {
    var n := Advance(w, r, s, Fresh(w, r, s));
    if s.fin then Close(w, n, queued) else n
  }

  /** heap.Pop and the bookkeeping after it. */
  function PopRoot(r: State): State
    requires |r.pending| > 0
  {
    r.(pending := Heap.Rest(Less, r.pending), pendingUsed := r.pendingUsed - r.pending[0].LogicalLen())
  }

  /** The last number of a segment lies before the next expected one. A segment without data
    * has its "last" number before its first. */
  predicate Passed(r: State, s: Packet) {
    LessThan(s.num + |s.data| - 1, r.nxt)
  }

  /** One turn of the loop over the queued segments whose root is passed or consumable. */
  function DrainOne(w: Width, r: State): State
    requires |r.pending| > 0
  {
    var s := r.pending[0];
    if Passed(r, s) then PopRoot(r)
    else
      var c := Consume(w, r.(pending := r.pending[0 := Fresh(w, r, s)]), s, true);
      // the receiver's segment is the heap's root, trimmed in place
      PopRoot(c)
  }

  function Drain(w: Width, r: State): State
    decreases |r.pending|
  {
    if r.closed || |r.pending| == 0 then r
    else if !Passed(r, r.pending[0]) && !Consumable(r, r.pending[0]) then r
    else Drain(w, DrainOne(w, r))
  }

  function Store(r: State, s: Packet): State {
    if r.pendingUsed < r.pendingSize
    then r.(pendingUsed := r.pendingUsed + s.LogicalLen(), pending := Heap.Push(Less, r.pending, s))
    else r
  }

  /** What handleRcvdSegment does with a segment that cannot be consumed yet. */
  function Queue(w: Width, r: State, s: Packet): State {
    if |s.data| > 0 || s.fin then
      SendAck(w, Store(r, s).(sack := Sack.Update(r.sack, s.num, Add(w, s.num, |s.data|), r.nxt)))
    else r
  }

  /** handleRcvdSegment */
  function Handle(w: Width, r: State, s: Packet): State {
    if r.closed then r
    else if !Acceptable(r, s.num, |s.data|) then SendAck(w, r)
    else if Consumable(r, s) then Drain(w, Consume(w, r, s, false))
    else Queue(w, r, s)
  }

  /** readLocked, when there is data: the application takes the first view. */
  function Read(r: State): State {
    if r.bufUsed == 0 || |r.ready| == 0 then r
    else r.(taken := r.taken + r.ready[0], ready := r.ready[1..], bufUsed := r.bufUsed - |r.ready[0]|)
  }
}
