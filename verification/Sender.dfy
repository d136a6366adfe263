/** The sending half of a connection: protocol/transport/tcp/snd.go and reno.go, with Write,
  * Shutdown and updateSndBufferUsage of endpoint.go and handleWrite and handleClose of
  * connect.go.
  *
  * The routines are functions of the sender's state, of the width of its sequence numbers
  * and of the time of the call; class Sender performs them step by step. `fault` stands
  * for a panic.
  */
module Sender {
  import opened Packets
  import opened Seqnum
  import Timer

  const INITIAL_CWND: int := 10
  const DUP_ACK_THRESHOLD: int := 3
  const MIN_RTO: int := 200_000_000
  const GIVE_UP_RTO: int := 60_000_000_000
  const TCP_HEADER: int := 20

  /** The flags of a queued segment: none yet, ack|psh, or ack|fin. */
  datatype Mark = Unset | Data | Fin

  datatype Segment = Segment(data: seq<byte>, num: int, mark: Mark) {
    function LogicalLen(): nat {
      |data| + if mark.Fin? then 1 else 0
    }
  }

  datatype Recovery = Recovery(active: bool, first: int, last: int, maxCwnd: int)

  datatype State = State(
    una: int, nxt: int, nxtList: int, wnd: int,
    list: seq<Segment>,          // writeList
    writeNext: nat,              // index of writeNext in writeList; its length for nil
    queue: seq<Segment>,         // ep.sndQueue
    inQueue: int,                // ep.sndBufInQueue
    bufUsed: int, bufSize: int,  // ep.sndBufUsed, ep.sndBufSize
    sndClosed: bool,             // ep.sndClosed
    closed: bool,
    written: seq<byte>,          // every byte Write has accepted
    cwnd: int, ssthresh: int, caAck: int, outstanding: int, dupAcks: int, fr: Recovery,
    maxPayload: int,
    rttNum: int, rttTime: int,   // rttMeasureSeqNum, rttMeasureTime
    srtt: int, rttvar: int, srttInited: bool, rto: int,
    lastSend: int, timer: Timer.State,
    out: seq<Packet>,            // every segment sent
    fault: bool)

  function Max(a: int, b: int): int { if a < b then b else a }
  function Min(a: int, b: int): int { if a < b then a else b }

  // ----- sending

  function Emit(s: State, p: Packet, now: int): State {
    s.(lastSend := now, rttTime := if Eq(p.num, s.rttNum) then now else s.rttTime, out := s.out + [p])
  }

  /** After a segment ending at `end` went out: sndNxt moves if it was new. */
  function Bump(s: State, end: int): State {
    if LessThan(s.nxt, end) then s.(nxt := end) else s
  }

  function WindowEnd(w: Width, s: State): int {
    Add(w, s.una, s.wnd)
  }

  /** A segment gets its number and flags the first time sendData looks at it. */
  function Numbered(s: State, g: Segment): Segment {
    if g.mark.Unset? then g.(num := s.nxt, mark := Data) else g
  }

  /** How much of segment g may go out in one piece. */
  function Piece(w: Width, s: State, g: Segment): nat {
    Max(0, Min(Size(g.num, WindowEnd(w, s)), s.maxPayload))
  }

  function SendFin(w: Width, s: State, g: Segment, now: int): State
    requires s.writeNext < |s.list|
  {
    var e := s.(list := s.list[s.writeNext := g.(mark := Fin)], writeNext := s.writeNext + 1);
    Bump(Emit(e, Packet(g.num, [], true), now), Add(w, g.num, 1))
  }

  /** The list with segment i cut into its first n bytes and the rest. */
  function Cut(w: Width, list: seq<Segment>, i: nat, g: Segment, n: nat): seq<Segment>
    requires i < |list|
  {
    if |g.data| > n then
      list[..i] + [g.(data := g.data[..n]), Segment(g.data[n..], Add(w, g.num, n), g.mark)] + list[i + 1..]
    else list[i := g]
  }

  function SendBytes(w: Width, s: State, g: Segment, now: int): State
    requires s.writeNext < |s.list|
  {
    var n := Piece(w, s, g);
    var data := if |g.data| > n then g.data[..n] else g.data;
    var e := s.(list := Cut(w, s.list, s.writeNext, g, n), writeNext := s.writeNext + 1,
                outstanding := s.outstanding + 1);
    Bump(Emit(e, Packet(g.num, data, false), now), Add(w, g.num, |data|))
  }

  datatype Turn = Go(s: State) | Halt(s: State)

  /** One turn of sendData's loop at writeNext. */
  function SendOne(w: Width, s: State, now: int): Turn
    requires s.writeNext < |s.list|
  {
    var g := Numbered(s, s.list[s.writeNext]);
    if |g.data| == 0 then
      if s.writeNext != |s.list| - 1 then Halt(s.(fault := true)) else Go(SendFin(w, s, g, now))
    else if g.mark.Fin? then Halt(s.(fault := true))
    else if !LessThan(g.num, WindowEnd(w, s)) then Halt(s.(list := s.list[s.writeNext := g]))
    else Go(SendBytes(w, s, g, now))
  }

  function SendLoop(w: Width, s: State, now: int): State
    decreases Max(0, s.cwnd - s.outstanding), |s.list| - s.writeNext
  {
    if s.writeNext >= |s.list| || s.outstanding >= s.cwnd then s
    else
      match SendOne(w, s, now)
      case Halt(t) => t
      case Go(t) => SendLoop(w, t, now)
  }

  function RestartIdle(s: State, now: int): State {
    if !s.fr.active && now - s.lastSend > s.rto && s.cwnd > INITIAL_CWND then s.(cwnd := INITIAL_CWND) else s
  }

  function ArmTimer(s: State, now: int): State {
    if !s.timer.mode.Enabled? && !Eq(s.una, s.nxt) then s.(timer := s.timer.Enable(now, s.rto)) else s
  }

  /** sendData */
  function SendData(w: Width, s: State, now: int): State {
    ArmTimer(SendLoop(w, RestartIdle(s, now), now), now)
  }

  /** sendAck, as far as this half is concerned: a segment without data at sndNxt. */
  function SendEmpty(s: State, now: int): State {
    Emit(s, Packet(s.nxt, [], false), now)
  }

  // ----- Write, Shutdown, and moving what they queued

  /** The segment Write queues, when it accepts anything. */
  function Write(w: Width, s: State, data: seq<byte>): State {
    var avail := s.bufSize - s.bufUsed;
    if |data| == 0 || s.sndClosed || avail <= 0 then s
    else
      var v := data[..Min(avail, |data|)];
      s.(bufUsed := s.bufUsed + |v|, inQueue := Add(w, s.inQueue, |v|),
         queue := s.queue + [Segment(v, 0, Unset)], written := s.written + v)
  }

  function Shutdown(w: Width, s: State): State {
    if s.sndClosed then s
    else s.(queue := s.queue + [Segment([], 0, Unset)], inQueue := Add(w, s.inQueue, 1), sndClosed := true)
  }

  function MoveQueue(w: Width, s: State): State {
    if |s.queue| == 0 then s
    else s.(list := s.list + s.queue, queue := [], nxtList := Add(w, s.nxtList, s.inQueue), inQueue := 0)
  }

  /** handleWrite */
  function HandleWrite(w: Width, s: State, now: int): State {
    SendData(w, MoveQueue(w, s), now)
  }

  /** handleClose */
  function HandleClose(w: Width, s: State, now: int): State {
    HandleWrite(w, s, now).(closed := true)
  }

  // ----- congestion control: Reno

  function SlowStart(s: State, acked: int): (State, int) {
    if s.cwnd + acked >= s.ssthresh then
      (s.(cwnd := s.ssthresh, caAck := 0), acked - (s.ssthresh - s.cwnd))
    else (s.(cwnd := s.cwnd + acked), 0)
  }

  /** The window and the count of acknowledged segments after n of them. The remainder is
    * taken by the window that has just grown. */
  function Grow(cwnd: int, n: int): (int, int) {
    if n >= cwnd && cwnd > 0 then
      var c := cwnd + n / cwnd;
      (c, if c > 0 then n % c else n)
    else (cwnd, n)
  }

  function Avoidance(s: State, acked: int): State {
    var (c, ca) := Grow(s.cwnd, s.caAck + acked);
    s.(cwnd := c, caAck := ca)
  }

  function RenoUpdate(s: State, acked: int): State {
    if s.cwnd < s.ssthresh then
      var (t, left) := SlowStart(s, acked);
      if left == 0 then t else Avoidance(t, left)
    else Avoidance(s, acked)
  }

  /** reduceSlowStartThreshold */
  function Threshold(s: State): int {
    Max(s.outstanding / 2, 2)
  }

  /** What leaveFastRecovery makes of fr. */
  function Left(w: Width, s: State): Recovery {
    Recovery(false, 0, Add(w, s.nxt, -1), 0)
  }

  // ----- acknowledgements

  /** The next (srtt, rttvar), as in section 2 of RFC 6298, on integers. */
  function Estimate(s: State, rtt: int): (int, int) {
    var diff := if s.srtt - rtt < 0 then rtt - s.srtt else s.srtt - rtt;
    if !s.srttInited then (rtt, Quo(rtt, 2)) else (Quo(7 * s.srtt + rtt, 8), Quo(3 * s.rttvar + diff, 4))
  }

  function UpdateRto(s: State, rtt: int): State {
    var (srtt, rttvar) := Estimate(s, rtt);
    s.(srtt := srtt, rttvar := rttvar, srttInited := true, rto := Max(srtt + 4 * rttvar, MIN_RTO))
  }

  /** Go's integer division, towards zero. */
  function Quo(a: int, b: nat): int
    requires b > 0
  {
    if a < 0 then -(-a / b) else a / b
  }

  function MeasureRtt(s: State, ack: int, now: int): State {
    if LessThan(s.rttNum, ack) then UpdateRto(s, now - s.rttTime).(rttNum := s.nxt) else s
  }

  /** What checkDuplicateAck decides: the fields it writes, and whether to retransmit. */
  datatype Verdict = Verdict(cwnd: int, ssthresh: int, dupAcks: int, fr: Recovery, rtx: bool)

  /** len is the logical length of the segment that carries the acknowledgement. */
  function Judge(w: Width, s: State, ack: int, wnd: int, len: nat): Verdict {
    var same := Verdict(s.cwnd, s.ssthresh, s.dupAcks, s.fr, false);
    if s.fr.active then
      if !InRange(ack, s.una, s.nxt + 1) then same
      else if LessThan(s.fr.last, ack) then same.(cwnd := s.ssthresh, dupAcks := 0, fr := Left(w, s))
      else if len != 0 || s.wnd != wnd then same
      else if Eq(ack, s.fr.first) then (if s.cwnd < s.fr.maxCwnd then same.(cwnd := s.cwnd + 1) else same)
      else same.(fr := s.fr.(first := ack), dupAcks := 0, rtx := true)
    else if !Eq(ack, s.una) || len != 0 || s.wnd != wnd || Eq(ack, s.nxt) then same.(dupAcks := 0)
    else if s.dupAcks + 1 < DUP_ACK_THRESHOLD then same.(dupAcks := s.dupAcks + 1)
    else if !LessThan(s.fr.last, ack) then same.(dupAcks := 0)
    else
      var t := Threshold(s);
      Verdict(t + 3, t, 0, Recovery(true, s.una, Add(w, s.nxt, -1), t + 3 + s.outstanding), true)
  }

  /** checkDuplicateAck */
  function CheckDuplicate(w: Width, s: State, ack: int, wnd: int, len: nat): (State, bool) {
    var v := Judge(w, s, ack, wnd, len);
    (s.(cwnd := v.cwnd, ssthresh := v.ssthresh, dupAcks := v.dupAcks, fr := v.fr), v.rtx)
  }

  /** What is left of the list when `left` more numbers are acknowledged, how many segments
    * went, and whether the list ran out. */
  datatype Popped = Popped(list: seq<Segment>, count: nat, fault: bool)

  function Pop(list: seq<Segment>, left: nat): Popped
    decreases |list|
  {
    if left == 0 then Popped(list, 0, false)
    else if |list| == 0 then Popped(list, 0, true)
    else
      var len := list[0].LogicalLen();
      if len > left then Popped([list[0].(data := Drop(list[0].data, left))] + list[1..], 0, false)
      else
        var r := Pop(list[1..], left - len);
        r.(count := r.count + 1)
  }

  /** `acked` more numbers are acknowledged, and p is what is left of the list. */
  function TakeOff(s: State, ack: int, acked: int, p: Popped): State {
    s.(dupAcks := 0, timer := s.timer.Disable(), una := ack, list := p.list,
       writeNext := if s.writeNext < p.count then 0 else s.writeNext - p.count,
       outstanding := s.outstanding - p.count, bufUsed := s.bufUsed - acked, fault := s.fault || p.fault)
  }

  /** The part of handleRcvdSegment for an acknowledgement of something new. */
  function Acknowledge(s: State, ack: int): State {
    var acked := Size(s.una, ack);
    var t := TakeOff(s, ack, acked, Pop(s.list, acked));
    var u := if t.fr.active then t else RenoUpdate(t, s.outstanding - t.outstanding);
    u.(outstanding := Max(u.outstanding, 0))
  }

  /** resendSegment */
  function Resend(s: State, now: int): State {
    var t := s.(rttNum := s.nxt);
    if |t.list| == 0 then t
    else Emit(t, Packet(t.list[0].num, t.list[0].data, t.list[0].mark.Fin?), now)
  }

  function TakeAck(w: Width, s: State, ack: int, wnd: int, len: nat, now: int): (State, bool) {
    var (d, rtx) := CheckDuplicate(w, MeasureRtt(s, ack, now), ack, wnd, len);
    var v := d.(wnd := wnd);
    (if InRange(ack - 1, v.una, v.nxt) then Acknowledge(v, ack) else v, rtx)
  }

  /** handleRcvdSegment */
  function HandleAck(w: Width, s: State, ack: int, wnd: int, len: nat, now: int): State {
    var (t, rtx) := TakeAck(w, s, ack, wnd, len, now);
    SendData(w, if rtx then Resend(t, now) else t, now)
  }

  // ----- the retransmit timer and the path's MTU

  /** What an expiry does before sending again. */
  function Backoff(w: Width, s: State): State {
    var fr := if s.fr.active then Left(w, s) else s.fr;
    s.(rto := 2 * s.rto, cwnd := 1, ssthresh := Threshold(s), dupAcks := if s.fr.active then 0 else s.dupAcks,
       fr := fr.(last := Add(w, s.nxt, -1)), outstanding := 0, writeNext := 0)
  }

  /** retransmitTimerExpired: the state after it, and whether the connection lives on. */
  function TimerExpired(w: Width, s: State, now: int): (State, bool) {
    var (timer, expired) := s.timer.(wake := false).CheckExpiration(now);
    var t := s.(timer := timer);
    if !expired then (t, true)
    else if t.rto >= GIVE_UP_RTO then (t, false)
    else (SendData(w, Backoff(w, t), now), true)
  }

  /** The first segment before writeNext that is too long for the new size, or writeNext. */
  function FirstTooLong(list: seq<Segment>, writeNext: nat, size: int, i: nat): (j: nat)
    requires i <= writeNext
    ensures i <= j <= writeNext
    ensures forall k :: i <= k < j && k < |list| ==> |list[k].data| <= size
    ensures j < writeNext ==> j < |list| && |list[j].data| > size
    decreases writeNext - i
  {
    if i == writeNext || i >= |list| then writeNext
    else if |list[i].data| > size then i
    else FirstTooLong(list, writeNext, size, i + 1)
  }

  /** updateMaxPayloadSize: optionLen is the room the options take. */
  function NewMtu(w: Width, s: State, mtu: int, optionLen: nat, count: nat, now: int): State {
    var m := mtu - TCP_HEADER - optionLen;
    if m >= s.maxPayload then s
    else
      var size := if m <= 0 then 1 else m;
      SendData(w, s.(maxPayload := size, outstanding := Max(s.outstanding - count, 0),
                     writeNext := FirstTooLong(s.list, s.writeNext, size, 0)), now)
  }

  /** newSender, for a connection that starts at number una. */
  function Init(una: int, wnd: int, mss: int, bufSize: int, w: Width): State {
    State(una, una, una, wnd, [], 0, [], 0, 0, bufSize, false, false, [],
          INITIAL_CWND, 0x7fff_ffff_ffff_ffff, 0, 0, 0, Recovery(false, 0, Add(w, una, -1), 0),
          mss, una, 0, 0, 0, false, 1_000_000_000, 0, Timer.Init(), [], false)
  }
}
