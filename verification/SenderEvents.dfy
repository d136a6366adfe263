/** What the sender's events keep: acknowledgements of any value, the retransmit timer, a new
  * path MTU. Builds on the ledger of SenderProofs.
  */
module SenderEvents {
  import opened Packets
  import opened Seqnum
  import opened Sender
  import opened SenderProofs

  // ----- popping acknowledged segments

  ghost predicate AllSent(list: seq<Segment>, m: nat) {
    m <= |list| && forall k :: 0 <= k < m ==> !list[k].mark.Unset? && (list[k].mark.Fin? <==> |list[k].data| == 0)
  }

  lemma OffShift(list: seq<Segment>, k: nat)
    requires |list| > 0 && k < |list|
    ensures Off(list, k + 1) == Len(list[0]) + Off(list[1..], k)
  {
    assert list[..k + 1] == [list[0]] + list[1..][..k];
    TotalAppend([list[0]], list[1..][..k]);
    TotalOne(list[0]);
  }

  /** `count` whole segments are gone and, when the acknowledgement ends inside the next one,
    * that one's first bytes. */
  ghost predicate PopSpec(list: seq<Segment>, left: nat, r: Popped) {
    && !r.fault && r.count <= |list| && Off(list, r.count) <= left
    && (left == Off(list, r.count) ==> r.list == list[r.count..])
    && (left > Off(list, r.count) ==> r.count < |list| && var d := left - Off(list, r.count);
          d < |list[r.count].data|
          && r.list == [list[r.count].(data := list[r.count].data[d..])] + list[r.count + 1..])
  }

  lemma PopSpecNext(list: seq<Segment>, left: nat, r: Popped)
    requires |list| > 0 && Len(list[0]) <= left && PopSpec(list[1..], left - Len(list[0]), r)
    ensures PopSpec(list, left, r.(count := r.count + 1))
  {
    hide Total;
    var c := r.count;
    OffShift(list, c);
    assert list[1..][c..] == list[c + 1..];
    if c + 1 < |list| {
      assert list[1..][c] == list[c + 1] && list[1..][c + 1..] == list[c + 2..];
    }
  }

  lemma PopSpecHere(list: seq<Segment>, left: nat)
    requires |list| > 0 && left < |list[0].data|
    ensures PopSpec(list, left,
      Popped(if left == 0 then list else [list[0].(data := list[0].data[left..])] + list[1..], 0, false))
  {
    assert list[..0] == [] && list[0..] == list;
  }

  /** The loop over acknowledged segments never meets an empty list. */
  lemma {:induction false} PopExact(list: seq<Segment>, left: nat, m: nat)
    requires AllSent(list, m) && left <= Off(list, m)
    ensures PopSpec(list, left, Pop(list, left)) && Pop(list, left).count <= m
    decreases |list|
  {
    hide Total, PopSpec;
    if left == 0 {
      PopNothing(list);
    } else if m == 0 {
      assert list[..0] == [];
      TotalNone();
      assert false;
    } else {
      OffShift(list, m - 1);
      assert list[0].LogicalLen() == Len(list[0]);
      if Len(list[0]) <= left {
        PopExact(list[1..], left - Len(list[0]), m - 1);
        PopSpecNext(list, left, Pop(list[1..], left - Len(list[0])));
      } else {
        PopSpecHere(list, left);
        assert Drop(list[0].data, left) == list[0].data[left..];
      }
    }
  }

  lemma PopNothing(list: seq<Segment>)
    ensures PopSpec(list, 0, Popped(list, 0, false))
  {
    assert list[..0] == [] && list[0..] == list;
  }

  lemma PopOff(list: seq<Segment>, left: nat, r: Popped, k: nat)
    requires PopSpec(list, left, r) && r.count + k <= |list|
    ensures |r.list| == |list| - r.count
    ensures k > 0 || left == Off(list, r.count) ==> Off(r.list, k) + left == Off(list, r.count + k)
  {
    hide Total;
    var c := r.count;
    assert list[..c + k] == list[..c] + list[c..][..k];
    TotalAppend(list[..c], list[c..][..k]);
    if k > 0 && left > Off(list, c) {
      var rest := list[c + 1..][..k - 1];
      assert list[c..][..k] == [list[c]] + rest;
      assert r.list[..k] == [r.list[0]] + rest;
      TotalAppend([list[c]], rest);
      TotalAppend([r.list[0]], rest);
      TotalOne(list[c]);
      TotalOne(r.list[0]);
    }
  }

  lemma PopBytes(list: seq<Segment>, left: nat, r: Popped)
    requires PopSpec(list, left, r) && FinLast(list)
    ensures Bytes(r.list) == Drop(Bytes(list), left)
    ensures r.count < |list| ==> left <= |Bytes(list)|
  {
    hide Total, Bytes;
    var c := r.count;
    assert list == list[..c] + list[c..];
    BytesAppend(list[..c], list[c..]);
    if c == |list| {
      assert list[..c] == list;
      BytesAtMost(list);
      BytesNone();
    } else {
      DataBytes(list, c);
      BytesFrom(list, c);
      var d := left - Off(list, c);
      if d > 0 {
        BytesAppend([r.list[0]], list[c + 1..]);
        BytesOne(r.list[0]);
        DropMiddle(Bytes(list[..c]), list[c].data, Bytes(list[c + 1..]), d);
      } else {
        DropMiddle(Bytes(list[..c]), Bytes(list[c..]), [], 0);
      }
    }
  }

  lemma BytesNone()
    ensures Bytes([]) == []
  {
  }

  lemma {:induction false} BytesAtMost(list: seq<Segment>)
    ensures |Bytes(list)| <= Total(list)
    decreases |list|
  {
    if |list| > 0 {
      BytesAtMost(list[1..]);
    }
  }

  lemma DropMiddle(a: seq<byte>, b: seq<byte>, c: seq<byte>, d: nat)
    requires d <= |b|
    ensures Drop(a + (b + c), |a| + d) == b[d..] + c
    ensures d == 0 && c == [] ==> Drop(a + b, |a|) == b
  {
    if c == [] {
      assert b + c == b;
    }
  }

  lemma PopFinLast(list: seq<Segment>, queue: seq<Segment>, left: nat, r: Popped)
    requires PopSpec(list, left, r) && FinLast(list + queue)
    ensures FinLast(list) && FinLast(r.list + queue) && |r.list + queue| <= |list + queue|
    ensures |list| > 0 && |list[|list| - 1].data| == 0 ==> queue == []
    ensures |r.list + queue| > 0 && |(r.list + queue)[|r.list + queue| - 1].data| == 0 ==>
      |(list + queue)[|list + queue| - 1].data| == 0
  {
    hide Total;
    var c := r.count;
    PopOff(list, left, r, 0);
    var was, now := list + queue, r.list + queue;
    forall k | 0 <= k < |list| - 1
      ensures |list[k].data| > 0
    {
      assert was[k] == list[k];
    }
    forall k | 0 <= k < |now|
      ensures |now[k].data| == 0 ==> |was[k + c].data| == 0
    {
      assert k > 0 ==> now[k] == was[k + c];
    }
    if |list| > 0 {
      assert was[|list| - 1] == list[|list| - 1];
    }
  }

  lemma AckBytes(base: int, s: State, left: nat, p: Popped)
    requires Ledger(base, s) && PopSpec(s.list, left, p) && left <= Total(s.list)
    ensures Bytes(p.list + s.queue) == Drop(s.written, s.una + left - base)
  {
    hide Total, Bytes, PopSpec, Ledger, Drop, FinLast;
    LedgerBytes(base, s);
    PopFinLast(s.list, s.queue, left, p);
    PopBytes(s.list, left, p);
    BytesAppend(s.list, s.queue);
    BytesAppend(p.list, s.queue);
    if p.count < |s.list| {
      DropAppend(Bytes(s.list), Bytes(s.queue), left);
    } else {
      PopCount(s.list, left, p);
      PopAll(s, left, p, base);
    }
    DropTwice(s.written, s.una - base, left);
  }

  lemma PopCount(list: seq<Segment>, left: nat, p: Popped)
    requires PopSpec(list, left, p)
    ensures p.count <= |list|
  {
  }

  /** The list after an acknowledgement of something sent, whatever it names. */
  lemma AckLedger(base: int, s: State, t: State, m: nat, ack: int)
    requires Ledger(base, s) && Labels(s, m) && s.una < ack <= s.nxt
    requires var p := Pop(s.list, ack - s.una);
      t.una == ack && t.list == p.list && t.nxtList == s.nxtList && t.queue == s.queue && t.inQueue == s.inQueue
      && t.written == s.written && t.sndClosed == s.sndClosed
    ensures Ledger(base, t)
  {
    hide Total, Bytes, SentOk, PopSpec, FinLast, Pop;
    var left := ack - s.una;
    AllSentOf(s, m);
    PopExact(s.list, left, m);
    var p := Pop(s.list, left);
    PopTotal(s.list, left, p);
    PopFinLast(s.list, s.queue, left, p);
    OffMonotone(s.list, m, |s.list|);
    AckBytes(base, s, left, p);
  }

  lemma PopAll(s: State, left: nat, p: Popped, base: int)
    requires PopSpec(s.list, left, p) && p.count == |s.list| && left <= Total(s.list)
    requires Ledger(base, s) && Bytes(p.list) == Drop(Bytes(s.list), left)
    ensures Bytes(p.list) + Bytes(s.queue) == Drop(Bytes(s.list) + Bytes(s.queue), left)
  {
    hide Total, Bytes;
    assert s.list[..|s.list|] == s.list && s.list[|s.list|..] == [];
    BytesNone();
    assert left == Total(s.list);
    if |s.list| == 0 {
      TotalNone();
    } else if |s.list[|s.list| - 1].data| == 0 {
      assert s.queue == [] by {
        assert (s.list + s.queue)[|s.list| - 1] == s.list[|s.list| - 1];
      }
      assert Bytes(s.list) + [] == Bytes(s.list) && Bytes(p.list) + [] == Bytes(p.list);
    } else {
      forall k | 0 <= k < |s.list|
        ensures |s.list[k].data| > 0
      {
        assert (s.list + s.queue)[k] == s.list[k];
      }
      BytesLength(s.list);
      DropAppend(Bytes(s.list), Bytes(s.queue), left);
    }
  }

  lemma DropTwice(w: seq<byte>, n: nat, k: nat)
    ensures Drop(Drop(w, n), k) == Drop(w, n + k)
  {
  }

  lemma PopTotal(list: seq<Segment>, left: nat, p: Popped)
    requires PopSpec(list, left, p)
    ensures Total(p.list) + left == Total(list)
  {
    hide Total;
    var k := |list| - p.count;
    PopOff(list, left, p, k);
    assert p.list[..k] == p.list && list[..|list|] == list;
    if k == 0 {
      TotalNone();
    }
  }

  lemma AllSentOf(s: State, m: nat)
    requires Labels(s, m)
    ensures AllSent(s.list, m) && s.nxt - s.una == Off(s.list, m)
  {
    hide Total;
    forall k | 0 <= k < m
      ensures !s.list[k].mark.Unset? && (s.list[k].mark.Fin? <==> |s.list[k].data| == 0)
    {
      assert SentOk(s.una + Off(s.list, k), s.list[k]);
    }
  }

  lemma AckLabelAt(s: State, m: nat, left: nat, p: Popped, k: nat)
    requires Labels(s, m) && PopSpec(s.list, left, p) && p.count <= m && k < |s.list| - p.count
    ensures |p.list| == |s.list| - p.count
    ensures p.count + k < m ==> SentOk(s.una + left + Off(p.list, k), p.list[k])
    ensures p.count + k >= m && left <= Off(s.list, m) ==> p.list[k] == s.list[p.count + k]
  {
    hide Total;
    var c := p.count;
    PopOff(s.list, left, p, k);
    OffNext(s.list, c);
    if c + k < m {
      assert SentOk(s.una + Off(s.list, c + k), s.list[c + k]);
      assert k > 0 ==> p.list[k] == s.list[c + k];
      assert p.list[..0] == [];
      TotalNone();
    } else if left <= Off(s.list, m) && k == 0 {
      assert m == c;
    }
  }

  lemma AckLabels(s: State, t: State, m: nat, ack: int)
    requires Labels(s, m) && s.una < ack <= s.nxt
    requires var p := Pop(s.list, ack - s.una);
      t.una == ack && t.list == p.list && t.nxt == s.nxt
      && t.writeNext == if s.writeNext < p.count then 0 else s.writeNext - p.count
    ensures var c := Pop(s.list, ack - s.una).count; c <= m && Labels(t, m - c)
  {
    hide Total, Pop, SentOk, PopSpec;
    var left := ack - s.una;
    AllSentOf(s, m);
    PopExact(s.list, left, m);
    var p := Pop(s.list, left);
    var c := p.count;
    PopOff(s.list, left, p, m - c);
    PopAtLeast(s.list, left, p);
    forall k | 0 <= k < |t.list|
      ensures k < m - c ==> SentOk(t.una + Off(t.list, k), t.list[k])
      ensures k >= m - c ==> t.list[k] == s.list[k + c]
    {
      AckLabelAt(s, m, left, p, k);
    }
  }

  lemma PopAtLeast(list: seq<Segment>, left: nat, p: Popped)
    requires PopSpec(list, left, p)
    ensures Off(list, p.count) <= left
  {
  }

  /** An acknowledgement that names a place removes whole segments only. */
  lemma PopAtPlace(list: seq<Segment>, left: nat, p: Popped, k: nat)
    requires PopSpec(list, left, p) && k <= |list| && Off(list, k) == left
    ensures left == Off(list, p.count)
  {
    hide Total;
    var c := p.count;
    if left > Off(list, c) {
      OffNext(list, c);
      if k <= c {
        OffMonotone(list, k, c);
      } else {
        OffMonotone(list, c + 1, k);
      }
    }
  }

  lemma AckPlaced(base: int, s: State, t: State, m: nat, ack: int)
    requires Labels(s, m) && Placed(base, s, m) && s.una < ack <= s.nxt && IsPlace(s, m, ack)
    requires var p := Pop(s.list, ack - s.una);
      t.una == ack && t.list == p.list && t.nxt == s.nxt && t.written == s.written && t.sndClosed == s.sndClosed
      && t.out == s.out
    ensures var c := Pop(s.list, ack - s.una).count; c <= m && Placed(base, t, m - c)
  {
    hide Total, Pop, SentOk, PopSpec;
    var left := ack - s.una;
    AllSentOf(s, m);
    PopExact(s.list, left, m);
    var p := Pop(s.list, left);
    var c := p.count;
    var at :| 0 <= at <= m && s.una + Off(s.list, at) == ack;
    PopAtPlace(s.list, left, p, at);
    PopWhole(s.list, left, p);
    PopOff(s.list, left, p, 0);
    forall k | 0 <= k < m - c
      ensures t.list[k].num == t.una + Off(t.list, k)
    {
      PopOff(s.list, left, p, k);
      assert t.list[k] == s.list[c + k];
    }
    forall q | q in t.out
      ensures Slice(base, t, q) && (q.LogicalLen() > 0 ==> q.End() <= t.una || IsPlace(t, m - c, q.End()))
    {
      assert Slice(base, s, q);
      if q.LogicalLen() > 0 && q.End() > t.una {
        AckKeepsPlace(s, t, m, p, left, q.End());
      }
    }
  }

  lemma PopWhole(list: seq<Segment>, left: nat, p: Popped)
    requires PopSpec(list, left, p) && left == Off(list, p.count)
    ensures p.count <= |list| && p.list == list[p.count..]
  {
  }

  lemma AckKeepsPlace(s: State, t: State, m: nat, p: Popped, left: nat, e: int)
    requires PopSpec(s.list, left, p) && left == Off(s.list, p.count) && IsPlace(s, m, e) && p.count <= m
    requires t.una == s.una + left && t.list == p.list && e > t.una
    ensures IsPlace(t, m - p.count, e)
  {
    hide Total;
    var k :| 0 <= k <= m && s.una + Off(s.list, k) == e;
    if k < p.count {
      OffMonotone(s.list, k, p.count);
    }
    PopOff(s.list, left, p, k - p.count);
    PopOff(s.list, left, p, m - p.count);
    assert t.una + Off(t.list, k - p.count) == e;
  }

  // ----- congestion control

  /** Reno never shrinks the window, and grows it by no more than what was acknowledged. */
  lemma RenoKeeps(s: State, acked: int)
    requires s.cwnd >= 1 && s.caAck >= 0 && acked >= 0
    ensures var t := RenoUpdate(s, acked);
      && t == s.(cwnd := t.cwnd, caAck := t.caAck) && s.cwnd <= t.cwnd <= s.cwnd + s.caAck + acked && t.caAck >= 0
  {
    hide Avoidance;
    if s.cwnd < s.ssthresh {
      var (u, left) := SlowStart(s, acked);
      if left != 0 {
        AvoidanceKeeps(u, left);
      }
    } else {
      AvoidanceKeeps(s, acked);
    }
  }

  lemma AvoidanceKeeps(s: State, acked: int)
    requires s.cwnd >= 1 && s.caAck >= 0 && acked >= 0
    ensures var t := Avoidance(s, acked);
      && t == s.(cwnd := t.cwnd, caAck := t.caAck) && s.cwnd <= t.cwnd <= s.cwnd + s.caAck + acked && t.caAck >= 0
  {
    var n := s.caAck + acked;
    if n >= s.cwnd {
      DivBounds(n, s.cwnd);
    }
  }

  lemma MulBounds(q: int, d: int)
    requires d >= 1
    ensures q >= 0 ==> q * d >= q
    ensures q <= 0 ==> q * d <= 0
  {
  }

  lemma DivBounds(n: int, d: int)
    requires n >= d >= 1
    ensures 1 <= n / d <= n
  {
    assert n == (n / d) * d + n % d;
    MulBounds(n / d, d);
  }

  /** The RTT estimate touches only its own fields, and the timeout never falls below 200ms. */
  lemma MeasureKeeps(s: State, ack: int, now: int)
    requires s.rto >= MIN_RTO
    ensures var t := MeasureRtt(s, ack, now);
      && t == s.(rto := t.rto, srtt := t.srtt, rttvar := t.rttvar, srttInited := t.srttInited, rttNum := t.rttNum)
      && t.rto >= MIN_RTO
  {
    hide Wire, Quo;
  }

  /** What checkDuplicateAck may leave behind for an acknowledgement near una: recovery's range
    * is still ahead of what is acknowledged, and a retransmission has something to send. */
  lemma CheckDuplicateKeeps(base: int, s: State, m: nat, ack: int, wnd: int, len: nat)
    requires Core(base, s, m) && -HALF <= ack - s.una < HALF
    ensures var (t, rtx) := CheckDuplicate(Unbounded, s, ack, wnd, len);
      var una := if s.una < ack <= s.nxt then ack else s.una;
      && t == s.(cwnd := t.cwnd, ssthresh := t.ssthresh, dupAcks := t.dupAcks, fr := t.fr)
      && Congestion(t) && s.fr.last <= t.fr.last < t.nxt
      && (t.fr.active ==> t.fr.first <= una <= t.fr.last < t.fr.first + SPAN)
      && (t.fr.active ==> t.ssthresh + 3 <= t.cwnd <= t.fr.maxCwnd)
      && (rtx ==> t.fr.active && una < t.nxt)
      // a recovery that starts covers only numbers beyond the previous one
      && (!s.fr.active && t.fr.active ==> ack == s.una && s.fr.last < t.fr.first == s.una && t.fr.last == s.nxt - 1)
      && (s.fr.active && t.fr.active ==> t.fr.last == s.fr.last)
  {
    hide Wire, Ledger, Labels, Total, CheckDuplicate;
    if s.fr.active {
      CheckWhileActive(s, ack, wnd, len);
    } else {
      CheckWhileInactive(s, ack, wnd, len);
    }
  }

  lemma CheckWhileActive(s: State, ack: int, wnd: int, len: nat)
    requires Congestion(s) && Recovering(s) && s.fr.active && s.nxt <= s.una + SPAN && -HALF <= ack - s.una < HALF
    ensures var (t, rtx) := CheckDuplicate(Unbounded, s, ack, wnd, len);
      var una := if s.una < ack <= s.nxt then ack else s.una;
      && t == s.(cwnd := t.cwnd, ssthresh := t.ssthresh, dupAcks := t.dupAcks, fr := t.fr)
      && Congestion(t) && s.fr.last <= t.fr.last < t.nxt
      && (t.fr.active ==> t.fr.first <= una <= t.fr.last < t.fr.first + SPAN)
      && (t.fr.active ==> t.ssthresh + 3 <= t.cwnd <= t.fr.maxCwnd)
      && (rtx ==> t.fr.active && una < t.nxt) && (t.fr.active ==> t.fr.last == s.fr.last)
  {
    hide Wire, Eq, InRange, LessThan;
    InRangeExact(ack, s.una, s.nxt + 1);
    if InRange(ack, s.una, s.nxt + 1) {
      LessThanExact(s.fr.last, ack);
    }
  }

  lemma CheckWhileInactive(s: State, ack: int, wnd: int, len: nat)
    requires Congestion(s) && Recovering(s) && !s.fr.active && s.una <= s.nxt <= s.una + SPAN
      && -HALF <= ack - s.una < HALF
    ensures var (t, rtx) := CheckDuplicate(Unbounded, s, ack, wnd, len);
      && t == s.(cwnd := t.cwnd, ssthresh := t.ssthresh, dupAcks := t.dupAcks, fr := t.fr)
      && Congestion(t) && s.fr.last <= t.fr.last < t.nxt && rtx == t.fr.active
      && (rtx ==> ack == s.una < t.nxt && t.fr.first == s.una <= t.fr.last == s.nxt - 1 && s.fr.last < s.una
                  && t.ssthresh + 3 == t.cwnd <= t.fr.maxCwnd)
  {
    hide Wire, Eq, InRange, LessThan;
    LessThanExact(ack, s.una);
    if ack == s.una {
      LessThanExact(ack, s.nxt);
      if s.fr.last >= ack {
        LessThanExact(s.fr.last, ack);
      }
    }
  }

  /** When recovery starts: the third duplicate of una, with something in flight, and fr.last
    * behind it by at most half the number space. The last condition is not in RFC 6582: fr.last
    * only moves with recoveries and timeouts, so a connection that loses nothing for more than
    * 2^31 bytes does not retransmit fast until its next timeout. */
  lemma RecoveryStarts(base: int, s: State, m: nat, ack: int, wnd: int, len: nat)
    requires Core(base, s, m) && -HALF <= ack - s.una < HALF && !s.fr.active
    ensures CheckDuplicate(Unbounded, s, ack, wnd, len).0.fr.active <==>
      && ack == s.una && s.una < s.nxt && len == 0 && wnd == s.wnd && s.dupAcks + 1 >= DUP_ACK_THRESHOLD
      && s.fr.last < ack && (ack - s.fr.last - 1) % MOD < HALF
  {
    hide Ledger, Labels, Total;
    LessThanExact(ack, s.una);
    LessThanExact(s.una, s.nxt);
    if ack == s.una && s.fr.last >= ack {
      LessThanExact(s.fr.last, ack);
    } else {
      WireGap(s.fr.last, ack);
    }
  }

  lemma WireGap(v: int, w: int)
    ensures LessThan(v, w) <==> (w - v - 1) % MOD < HALF
  {
    var d := w - v;
    assert Wire(v - w) == if d % MOD == 0 then 0 else MOD - d % MOD;
    assert (d - 1) % MOD == if d % MOD == 0 then MOD - 1 else d % MOD - 1;
  }

  // ----- an acknowledgement

  /** The state right after the acknowledged segments are gone. */
  ghost function Popping(s: State, ack: int): State {
    TakeOff(s, ack, Size(s.una, ack), Pop(s.list, Size(s.una, ack)))
  }

  lemma PoppingKeeps(base: int, s: State, m: nat, ack: int) returns (m': nat)
    requires Ledger(base, s) && Labels(s, m) && s.una < ack <= s.nxt <= s.una + SPAN && !s.fault
    ensures var t := Popping(s, ack);
      && Ledger(base, t) && Labels(t, m') && !t.fault && t.una == ack && t.outstanding <= s.outstanding
      && t == s.(dupAcks := 0, timer := t.timer, una := ack, list := t.list, writeNext := t.writeNext,
                 outstanding := t.outstanding, bufUsed := s.bufUsed - (ack - s.una))
      && !t.timer.mode.Enabled?
      && (Placed(base, s, m) && IsPlace(s, m, ack) ==> Placed(base, t, m'))
  {
    hide Wire, Total, Bytes, SentOk, Ledger, Labels, Placed, Pop;
    SizeExact(s.una, ack);
    var p := Pop(s.list, ack - s.una);
    AllSentOf(s, m);
    PopExact(s.list, ack - s.una, m);
    PopNoFault(s.list, ack - s.una, p);
    m' := m - p.count;
    var t := Popping(s, ack);
    AckLedger(base, s, t, m, ack);
    AckLabels(s, t, m, ack);
    if Placed(base, s, m) && IsPlace(s, m, ack) {
      AckPlaced(base, s, t, m, ack);
    }
  }

  lemma PopNoFault(list: seq<Segment>, left: nat, p: Popped)
    requires PopSpec(list, left, p)
    ensures !p.fault
  {
  }

  lemma AcknowledgeIsPopping(s: State, ack: int)
    ensures Acknowledge(s, ack) ==
      var t := Popping(s, ack);
      var u := if t.fr.active then t else RenoUpdate(t, s.outstanding - t.outstanding);
      u.(outstanding := Max(u.outstanding, 0))
  {
  }

  lemma AcknowledgeKeeps(base: int, s: State, m: nat, ack: int) returns (m': nat)
    requires Ledger(base, s) && Labels(s, m) && Reach(base, s) && Congestion(s) && !s.fault
    requires s.una < ack <= s.nxt && s.fr.last < s.nxt
    requires s.fr.active ==>
      s.fr.first <= ack <= s.fr.last < s.fr.first + SPAN && s.ssthresh + 3 <= s.cwnd <= s.fr.maxCwnd
    ensures var t := Acknowledge(s, ack);
      && Core(base, t, m') && t.una == ack && !t.timer.mode.Enabled? && t.out == s.out
      && SameButAck(s, t) && t.fr == s.fr && t.wnd == s.wnd && t.bufUsed == s.bufUsed - (ack - s.una)
      && (Placed(base, s, m) && IsPlace(s, m, ack) ==> Placed(base, t, m'))
  {
    hide Wire, Total, Bytes, SentOk, Ledger, Labels, Placed, Popping, RenoUpdate, Acknowledge;
    AcknowledgeIsPopping(s, ack);
    m' := PoppingKeeps(base, s, m, ack);
    var t := Popping(s, ack);
    if !t.fr.active {
      RenoKeeps(t, s.outstanding - t.outstanding);
    }
    var u := Acknowledge(s, ack);
    LedgerSame(base, t, u, m');
  }

  /** What an acknowledgement leaves alone. */
  ghost predicate SameButAck(s: State, t: State) {
    t == s.(una := t.una, list := t.list, writeNext := t.writeNext, wnd := t.wnd, bufUsed := t.bufUsed,
      timer := t.timer,
            cwnd := t.cwnd, ssthresh := t.ssthresh, caAck := t.caAck, dupAcks := t.dupAcks, fr := t.fr,
            outstanding := t.outstanding, rto := t.rto, srtt := t.srtt, rttvar := t.rttvar,
            srttInited := t.srttInited, rttNum := t.rttNum)
  }

  /** A recovery that starts covers what is in flight, all of it beyond the previous one. */
  ghost predicate Beyond(s: State, t: State) {
    s.fr.last < t.fr.first == s.una <= t.fr.last == s.nxt - 1
  }

  /** Any acknowledgement near una, with any window and carried by any segment. */
  lemma TakeAckKeeps(base: int, s: State, m: nat, ack: int, wnd: int, len: nat, now: int) returns (m': nat)
    requires Core(base, s, m) && -HALF <= ack - s.una < HALF && 0 <= wnd <= MAX_WND
    ensures var (t, rtx) := TakeAck(Unbounded, s, ack, wnd, len, now);
      && Core(base, t, m') && SameButAck(s, t) && s.fr.last <= t.fr.last
      && t.una == (if s.una < ack <= s.nxt then ack else s.una) && t.bufUsed == s.bufUsed - (t.una - s.una)
      && (rtx ==> t.una < t.nxt)
      && (!s.fr.active && t.fr.active ==> Beyond(s, t))
      && (if t.una == s.una then t.timer == s.timer else !t.timer.mode.Enabled?)
      && (Placed(base, s, m) && (s.una < ack <= s.nxt ==> IsPlace(s, m, ack)) ==> Placed(base, t, m'))
  {
    hide Wire, Total, Bytes, SentOk, Ledger, Labels, Placed, MeasureRtt, CheckDuplicate, Acknowledge, IsPlace;
    MeasureKeeps(s, ack, now);
    var a := MeasureRtt(s, ack, now);
    LedgerSame(base, s, a, m);
    CheckDuplicateKeeps(base, a, m, ack, wnd, len);
    var (d, rtx) := CheckDuplicate(Unbounded, a, ack, wnd, len);
    var v := d.(wnd := wnd);
    LedgerSame(base, s, v, m);
    InRangeExact(ack - 1, v.una, v.nxt);
    if s.una < ack <= s.nxt {
      m' := AcknowledgeKeeps(base, v, m, ack);
      if IsPlace(s, m, ack) {
        SamePlace(s, v, m, ack);
      }
    } else {
      m' := m;
    }
  }

  lemma SamePlace(s: State, t: State, m: nat, e: int)
    requires SameStream(s, t) && IsPlace(s, m, e)
    ensures IsPlace(t, m, e)
  {
  }

  lemma ResendKeeps(base: int, s: State, m: nat, now: int)
    requires Core(base, s, m) && s.una < s.nxt
    ensures var t := Resend(s, now);
      && Core(base, t, m) && t == s.(rttNum := t.rttNum, rttTime := t.rttTime, lastSend := t.lastSend, out := t.out)
      && |s.list| > 0 && t.out == s.out + [Packet(s.list[0].num, s.list[0].data, s.list[0].mark.Fin?)]
      && (Placed(base, s, m) ==> Placed(base, t, m))
  {
    hide Wire, Total, Bytes, Ledger;
    assert m > 0 by {
      assert s.list[..0] == [];
      TotalNone();
    }
    var t := Resend(s, now);
    LedgerSame(base, s, t, m);
    if Placed(base, s, m) {
      FrontIsSlice(base, s, m);
      forall p | p in t.out
        ensures Slice(base, t, p) && (p.LogicalLen() > 0 ==> p.End() <= t.una || IsPlace(t, m, p.End()))
      {
        if p in s.out {
          assert Slice(base, s, p);
          if p.LogicalLen() > 0 && p.End() > s.una {
            SamePlace(s, t, m, p.End());
          }
        } else {
          SamePlace(s, t, m, p.End());
        }
      }
    }
  }

  lemma FrontIsSlice(base: int, s: State, m: nat)
    requires Core(base, s, m) && Exact(s, m) && m > 0
    ensures var g := s.list[0]; var p := Packet(g.num, g.data, g.mark.Fin?);
      Slice(base, s, p) && IsPlace(s, m, p.End())
  {
    hide Wire, Total, Bytes, Ledger, SentOk;
    var g := s.list[0];
    FrontMarks(s, m);
    assert s.list[..0] == [];
    TotalNone();
    OffNext(s.list, 0);
    OffMonotone(s.list, 1, m);
    NewPlace(s, m, 1);
    LedgerBytes(base, s);
    if |g.data| > 0 {
      DataInPlace(base, s, 0);
    } else {
      FinIsLast(base, s.(writeNext := 0), m) by { LedgerSame(base, s, s.(writeNext := 0), m); }
    }
  }

  lemma FrontMarks(s: State, m: nat)
    requires Labels(s, m) && m > 0
    ensures var g := s.list[0]; !g.mark.Unset? && (g.mark.Fin? <==> |g.data| == 0) && Len(g) <= MAX_SEGMENT
  {
    hide Total;
    assert SentOk(s.una + Off(s.list, 0), s.list[0]);
  }

  /** Everything that holds between two events: the invariant, and the retransmit timer runs
    * exactly while something is unacknowledged. */
  ghost predicate Rest(base: int, s: State, m: nat) {
    Core(base, s, m) && TimerRuns(s) && TimerIdle(s)
  }

  lemma HandleAckKeeps(base: int, s: State, m: nat, ack: int, wnd: int, len: nat, now: int) returns (m': nat)
    requires Rest(base, s, m) && -HALF <= ack - s.una < HALF && 0 <= wnd <= MAX_WND
    ensures var t := HandleAck(Unbounded, s, ack, wnd, len, now);
      && Rest(base, t, m') && t.una == (if s.una < ack <= s.nxt then ack else s.una)
      && s.nxt <= t.nxt && s.out <= t.out && s.fr.last <= t.fr.last && Exhausted(t)
      && t.written == s.written && t.sndClosed == s.sndClosed && t.closed == s.closed
      && t.bufUsed == s.bufUsed - (t.una - s.una) && (!s.fr.active && t.fr.active ==> Beyond(s, t))
      && (Placed(base, s, m) && (s.una < ack <= s.nxt ==> IsPlace(s, m, ack)) ==> Placed(base, t, m'))
  {
    hide Wire, Core, Placed, IsPlace, TakeAck, SendData, WithinLimits, Resend;
    var a := TakeAckKeeps(base, s, m, ack, wnd, len, now);
    var (t, rtx) := TakeAck(Unbounded, s, ack, wnd, len, now);
    if rtx {
      ResendKeeps(base, t, a, now);
      m' := SendDataKeeps(base, Resend(t, now), a, now);
    } else {
      m' := SendDataKeeps(base, t, a, now);
    }
  }

  lemma BackoffKeeps(base: int, s: State, m: nat)
    requires Core(base, s, m)
    ensures var t := Backoff(Unbounded, s);
      && Core(base, t, m) && SameStream(s, t) && t.out == s.out && t.timer == s.timer && t.rto == 2 * s.rto
      && t.closed == s.closed && t.bufUsed == s.bufUsed
      && s.fr.last <= t.fr.last == s.nxt - 1 && !t.fr.active && t.writeNext == 0
      && (Placed(base, s, m) ==> Placed(base, t, m))
  {
    hide Wire, Ledger, Labels, Placed;
    LabelsCursor(s, m);
    LedgerSame(base, s, Backoff(Unbounded, s), m);
  }

  /** The retransmit timer's waker: a spurious wake changes nothing but the timer; an expiry
    * rewinds to the first unacknowledged segment; a connection that has backed off for a
    * minute is given up. */
  lemma TimerExpiredKeeps(base: int, s: State, m: nat, now: int) returns (m': nat)
    requires Rest(base, s, m)
    ensures var (t, alive) := TimerExpired(Unbounded, s, now);
      && Core(base, t, m') && (alive ==> Rest(base, t, m'))
      && t.una == s.una && s.nxt <= t.nxt && s.out <= t.out && s.fr.last <= t.fr.last
      && t.written == s.written && t.sndClosed == s.sndClosed && t.closed == s.closed && t.bufUsed == s.bufUsed
      && (Placed(base, s, m) ==> Placed(base, t, m'))
      && (t.fr.active ==> s.fr.active)
      && (!alive ==> s.rto >= GIVE_UP_RTO && SameStream(s, t) && t.out == s.out)
      && (!alive || t.rto != s.rto ==> !s.timer.mode.Orphaned? && s.timer.target <= now)
  {
    hide Wire, Core, Placed, SendData, WithinLimits, Backoff;
    m' := m;
    var (timer, expired) := s.timer.(wake := false).CheckExpiration(now);
    var t := s.(timer := timer);
    TimerOnly(base, s, t, m);
    if expired && t.rto < GIVE_UP_RTO {
      BackoffKeeps(base, t, m);
      m' := SendDataKeeps(base, Backoff(Unbounded, t), m, now);
    }
  }

  lemma TimerOnly(base: int, s: State, t: State, m: nat)
    requires Core(base, s, m) && t == s.(timer := t.timer)
    ensures Core(base, t, m) && (Placed(base, s, m) ==> Placed(base, t, m))
  {
    hide Ledger, Labels, Placed;
    LabelsCursor(s, m);
    LedgerSame(base, s, t, m);
  }

  lemma NewMtuKeeps(base: int, s: State, m: nat, mtu: int, optionLen: nat, count: nat, now: int) returns (m': nat)
    requires Rest(base, s, m)
    ensures var t := NewMtu(Unbounded, s, mtu, optionLen, count, now);
      && Rest(base, t, m') && t.una == s.una && s.nxt <= t.nxt && s.out <= t.out && s.fr.last <= t.fr.last
      && t.written == s.written && t.sndClosed == s.sndClosed && t.closed == s.closed && t.bufUsed == s.bufUsed
      && t.maxPayload <= s.maxPayload && t.fr == s.fr
      && (Placed(base, s, m) ==> Placed(base, t, m'))
  {
    hide Wire, Ledger, Labels, Placed, SendData, WithinLimits;
    var size := mtu - TCP_HEADER - optionLen;
    if size >= s.maxPayload {
      m' := m;
    } else {
      var t := s.(maxPayload := if size <= 0 then 1 else size, outstanding := Max(s.outstanding - count, 0),
                  writeNext := FirstTooLong(s.list, s.writeNext, if size <= 0 then 1 else size, 0));
      LabelsCursor(s, m);
      LedgerSame(base, s, t, m);
      m' := SendDataKeeps(base, t, m, now);
    }
  }

  lemma HandleWriteKeeps(base: int, s: State, m: nat, now: int) returns (m': nat)
    requires Rest(base, s, m)
    ensures var t := HandleWrite(Unbounded, s, now);
      && Rest(base, t, m') && t.una == s.una && s.nxt <= t.nxt && s.out <= t.out && s.fr.last <= t.fr.last
      && t.written == s.written && t.sndClosed == s.sndClosed && t.closed == s.closed && t.bufUsed == s.bufUsed
      && t.fr == s.fr
      && (Placed(base, s, m) ==> Placed(base, t, m'))
  {
    hide Wire, Core, Placed, SendData, WithinLimits, MoveQueue;
    MoveQueueKeeps(base, s, m);
    m' := SendDataKeeps(base, MoveQueue(Unbounded, s), m, now);
  }

  lemma SendEmptyKeeps(base: int, s: State, m: nat, now: int)
    requires Rest(base, s, m)
    ensures var t := SendEmpty(s, now);
      && Rest(base, t, m) && t == s.(out := t.out, lastSend := t.lastSend, rttTime := t.rttTime)
      && t.out == s.out + [Packet(s.nxt, [], false)] && (Placed(base, s, m) ==> Placed(base, t, m))
  {
    hide Wire, Total, Ledger, Labels;
    var t := SendEmpty(s, now);
    LabelsCursor(s, m);
    LedgerSame(base, s, t, m);
    LedgerBytes(base, s);
    if Placed(base, s, m) {
      forall p | p in t.out
        ensures Slice(base, t, p) && (p.LogicalLen() > 0 ==> p.End() <= t.una || IsPlace(t, m, p.End()))
      {
        if p in s.out {
          assert Slice(base, s, p);
          if p.LogicalLen() > 0 && p.End() > s.una {
            SamePlace(s, t, m, p.End());
          }
        }
      }
    }
  }

  lemma InitKeeps(una: int, wnd: int, mss: int, bufSize: int)
    requires 0 <= wnd <= MAX_WND && 1 <= mss <= MAX_SEGMENT
    ensures var s := Init(una, wnd, mss, bufSize, Unbounded); Rest(una, s, 0) && Placed(una, s, 0)
  {
  }
}
