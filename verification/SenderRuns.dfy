/** The sender over whole runs, against any peer: acknowledgements may name any number and
  * carry any window, in any order.
  */
module SenderRuns {
  import opened Packets
  import opened Seqnum
  import opened Sender
  import opened SenderProofs
  import opened SenderEvents
  import Timer

  datatype Event =
    | WriteCall(data: seq<byte>)
    | ShutdownCall
    | WriteWakes
    | CloseWakes
    | Fires                                        // the runtime timer of the retransmit timer
    | TimerWakes                                   // the waker it asserted is seen
    | MtuChanges(mtu: int, optionLen: nat, count: nat)
    | EmptyGoes
    | AckComes(number: int, wnd: int, len: nat)    // on a segment of logical length len

  predicate Due(t: Timer.State, now: int) {
    Timer.Possible(t, now, Timer.Fire)
  }

  /** The state after an event, and whether the connection lives on. The runtime timer fires only
    * when it is due, and its waker is seen only when it is asserted. */
  function Step(w: Width, s: State, e: Event, now: int): (State, bool) {
    match e
    case WriteCall(data) => (Write(w, s, data), true)
    case ShutdownCall => (Shutdown(w, s), true)
    case WriteWakes => (HandleWrite(w, s, now), true)
    case CloseWakes => (HandleClose(w, s, now), true)
    case Fires => (if Due(s.timer, now) then s.(timer := Timer.Apply(s.timer, now, Timer.Fire)) else s, true)
    case TimerWakes => if s.timer.wake then TimerExpired(w, s, now) else (s, true)
    case MtuChanges(mtu, optionLen, count) => (NewMtu(w, s, mtu, optionLen, count, now), true)
    case EmptyGoes => (SendEmpty(s, now), true)
    case AckComes(number, wnd, len) => (HandleAck(w, s, number, wnd, len, now), true)
  }

  /** An acknowledgement number on the wire has exactly one unwrapped value this near to una;
    * a window field of 16 bits scaled by at most 14 is at most MAX_WND. */
  predicate Possible(s: State, e: Event) {
    e.AckComes? ==> -HALF <= e.number - s.una < HALF && 0 <= e.wnd <= MAX_WND
  }

  /** The acknowledgement, if it is one of something new, names a segment boundary. */
  ghost predicate OnPlace(s: State, m: nat, e: Event) {
    e.AckComes? && s.una < e.number <= s.nxt ==> IsPlace(s, m, e.number)
  }

  /** What every event leaves standing. */
  ghost predicate Onward(s: State, t: State) {
    && s.out <= t.out && s.una <= t.una && s.nxt <= t.nxt && s.fr.last <= t.fr.last
    && s.written <= t.written && (s.sndClosed ==> t.sndClosed && t.written == s.written)
    // the send buffer holds what was written and is not acknowledged
    && t.bufUsed - |t.written| + t.una == s.bufUsed - |s.written| + s.una
    && (Enters(s, t) ==> Beyond(s, t))
  }

  predicate Enters(s: State, t: State) {
    !s.fr.active && t.fr.active
  }

  lemma StepKeeps(base: int, s: State, m: nat, e: Event, now: int) returns (m': nat)
    requires Rest(base, s, m) && Possible(s, e)
    ensures var (t, alive) := Step(Unbounded, s, e, now);
      && Core(base, t, m') && (alive ==> Rest(base, t, m')) && Onward(s, t)
      && (t.una == s.una || (e.AckComes? && t.una == e.number))
      && (Placed(base, s, m) && OnPlace(s, m, e) ==> Placed(base, t, m'))
  {
    hide Wire, Core, Placed, IsPlace, Write, Shutdown, HandleWrite, TimerExpired, NewMtu, SendEmpty, HandleAck,
      Exhausted;
    m' := m;
    match e {
      case WriteCall(data) => WriteKeeps(base, s, m, data);
      case ShutdownCall => ShutdownKeeps(base, s, m);
      case WriteWakes => m' := HandleWriteKeeps(base, s, m, now);
      case CloseWakes =>
        m' := HandleWriteKeeps(base, s, m, now);
        MarkClosed(base, HandleWrite(Unbounded, s, now), m');
      case Fires => FiresKeeps(base, s, m, now);
      case TimerWakes =>
        if s.timer.wake {
          m' := TimerExpiredKeeps(base, s, m, now);
        }
      case MtuChanges(mtu, optionLen, count) => m' := NewMtuKeeps(base, s, m, mtu, optionLen, count, now);
      case EmptyGoes => SendEmptyKeeps(base, s, m, now);
      case AckComes(number, wnd, len) => m' := HandleAckKeeps(base, s, m, number, wnd, len, now);
    }
  }

  lemma FiresKeeps(base: int, s: State, m: nat, now: int)
    requires Rest(base, s, m)
    ensures var t := Step(Unbounded, s, Fires, now).0;
      Rest(base, t, m) && t == s.(timer := t.timer) && (Placed(base, s, m) ==> Placed(base, t, m))
  {
    hide Wire, Ledger, Labels, Placed, Write, Shutdown, HandleWrite, TimerExpired, NewMtu, SendEmpty, HandleAck;
    TimerOnly(base, s, Step(Unbounded, s, Fires, now).0, m);
  }

  lemma MarkClosed(base: int, s: State, m: nat)
    requires Rest(base, s, m)
    ensures Rest(base, s.(closed := true), m) && (Placed(base, s, m) ==> Placed(base, s.(closed := true), m))
  {
    hide Ledger, Labels, Placed;
    LabelsCursor(s, m);
    LedgerSame(base, s, s.(closed := true), m);
  }

  /** The sender is closed by handleClose alone, for good. */
  lemma ClosedExactly(base: int, s: State, m: nat, e: Event, now: int)
    requires Rest(base, s, m) && Possible(s, e)
    ensures Step(Unbounded, s, e, now).0.closed <==> s.closed || e.CloseWakes?
  {
    hide Wire, Core, Placed, IsPlace, HandleWrite, TimerExpired, NewMtu, HandleAck, Exhausted;
    match e {
      case WriteWakes => var x := HandleWriteKeeps(base, s, m, now);
      case TimerWakes =>
        if s.timer.wake {
          var x := TimerExpiredKeeps(base, s, m, now);
        }
      case MtuChanges(mtu, optionLen, count) => var x := NewMtuKeeps(base, s, m, mtu, optionLen, count, now);
      case AckComes(number, wnd, len) => var x := HandleAckKeeps(base, s, m, number, wnd, len, now);
      case _ =>
    }
  }

  /** The sender after a run that ends when the connection is given up. */
  function Run(w: Width, s: State, es: seq<(Event, int)>): (State, bool)
    decreases |es|
  {
    if |es| == 0 then (s, true)
    else
      var (t, alive) := Step(w, s, es[0].0, es[0].1);
      if alive then Run(w, t, es[1..]) else (t, false)
  }

  predicate PossibleRun(s: State, es: seq<(Event, int)>)
    decreases |es|
  {
    |es| == 0
    || (Possible(s, es[0].0)
        && (Step(Unbounded, s, es[0].0, es[0].1).1 ==> PossibleRun(Step(Unbounded, s, es[0].0, es[0].1).0, es[1..])))
  }

  /** In every run of any events: no panic, the ledger balances, sequence numbers stay within
    * reach of una, recovery stays within its bounds, and a connection that lives has its
    * retransmit timer running exactly while something is unacknowledged. */
  lemma {:induction false} RunKeeps(base: int, s: State, m: nat, es: seq<(Event, int)>) returns (m': nat)
    requires Rest(base, s, m) && PossibleRun(s, es)
    ensures var (t, alive) := Run(Unbounded, s, es);
      && Core(base, t, m') && (alive ==> Rest(base, t, m'))
      && s.fr.last <= t.fr.last && s.una <= t.una && s.nxt <= t.nxt
      && t.bufUsed - |t.written| + t.una == s.bufUsed - |s.written| + s.una
    decreases |es|
  {
    hide Wire, Core, Step, Possible, Rest;
    RestIsCore(base, s, m);
    if |es| == 0 {
      m' := m;
    } else {
      var n := StepKeeps(base, s, m, es[0].0, es[0].1);
      var (t, alive) := Step(Unbounded, s, es[0].0, es[0].1);
      if alive {
        m' := RunKeeps(base, t, n, es[1..]);
      } else {
        m' := n;
      }
    }
  }

  datatype Range = Range(first: int, last: int)

  /** What each recovery of a run covers when it is entered. */
  function Entries(s: State, es: seq<(Event, int)>): seq<Range>
    decreases |es|
  {
    if |es| == 0 then []
    else
      var (t, alive) := Step(Unbounded, s, es[0].0, es[0].1);
      (if Enters(s, t) then [Range(t.fr.first, t.fr.last)] else []) + if alive then Entries(t, es[1..]) else []
  }

  ghost predicate Apart(last: int, rs: seq<Range>) {
    && (forall i :: 0 <= i < |rs| ==> last < rs[i].first <= rs[i].last)
    && (forall i, j :: 0 <= i < j < |rs| ==> rs[i].last < rs[j].first)
  }

  lemma Front(head: seq<Range>, rs: seq<Range>, last: int, next: int)
    requires last <= next && Apart(next, rs) && |head| <= 1
    requires |head| == 1 ==> last < head[0].first <= head[0].last == next
    ensures Apart(last, head + rs)
  {
  }

  /** Over a whole run no two recoveries cover the same number, and each lies beyond all before:
    * the careful variant of section 3.2 of RFC 6582. */
  lemma {:induction false} EntriesApart(base: int, s: State, m: nat, es: seq<(Event, int)>)
    requires Rest(base, s, m) && PossibleRun(s, es)
    ensures Apart(s.fr.last, Entries(s, es))
    decreases |es|
  {
    hide Wire, Core, Step, Possible, Rest;
    if |es| > 0 {
      var n := StepKeeps(base, s, m, es[0].0, es[0].1);
      var (t, alive) := Step(Unbounded, s, es[0].0, es[0].1);
      var head := if Enters(s, t) then [Range(t.fr.first, t.fr.last)] else [];
      if alive {
        EntriesApart(base, t, n, es[1..]);
        Front(head, Entries(t, es[1..]), s.fr.last, t.fr.last);
      } else {
        assert Entries(s, es) == head;
      }
    }
  }

  lemma RestIsCore(base: int, s: State, m: nat)
    requires Rest(base, s, m)
    ensures Core(base, s, m)
  {
  }

  /** What the invariant says in the terms of the endpoint: everything accepted is either
    * acknowledged or still held, in order; the end of the list is where the queue starts; and the
    * buffer's count is what is held, less one when the FIN was acknowledged, which was never counted
    * in. */
  lemma LedgerReads(base: int, s: State, m: nat)
    requires Core(base, s, m) && s.bufUsed - |s.written| + s.una == base
    ensures var n := Min(s.una - base, |s.written|);
      0 <= n && s.written == s.written[..n] + Bytes(s.list) + Bytes(s.queue)
    ensures s.bufUsed == |Bytes(s.list)| + |Bytes(s.queue)| - if s.una > base + |s.written| then 1 else 0
    ensures s.una <= base + |s.written| + 1 && (s.una > base + |s.written| ==> s.sndClosed)
    ensures Total(s.list) + Total(s.queue) == s.nxtList + s.inQueue - s.una
    ensures !s.fault && s.una <= s.nxt <= s.nxtList
  {
    hide Total, Bytes;
    BytesAppend(s.list, s.queue);
    OffMonotone(s.list, m, |s.list|);
    LengthBound(base, s);
    var n := Min(s.una - base, |s.written|);
    assert s.written == s.written[..n] + s.written[n..];
  }
}
