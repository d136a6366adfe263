/** What an acknowledgement makes the sender do, exactly and on integers: duplicates, partial
  * acknowledgements, the end of recovery, and what is taken off the write list.
  */
module SenderReno {
  import opened Packets
  import opened Seqnum
  import opened Sender
  import opened SenderProofs
  import opened SenderEvents
  import opened SenderProgress
  import opened SenderExact

  /** An acknowledgement that repeats the last one, with something in flight: section 2 of RFC 5681. */
  predicate Duplicate(s: State, ack: int, wnd: int, len: nat) {
    ack == s.una < s.nxt && len == 0 && wnd == s.wnd
  }

  /** A third duplicate counts only if fr.last is behind it, by at most half the number space. */
  predicate Covered(s: State) {
    s.fr.last < s.una && (s.una - s.fr.last - 1) % MOD < HALF
  }

  /** Outside recovery, duplicates are counted, and anything else starts the count again; the third
    * enters recovery, with half of what is outstanding as the new threshold. */
  lemma OutsideRecovery(base: int, s: State, m: nat, ack: int, wnd: int, len: nat)
    requires Core(base, s, m) && -HALF <= ack - s.una < HALF && !s.fr.active
    ensures var (t, rtx) := CheckDuplicate(Unbounded, s, ack, wnd, len);
      var third := Duplicate(s, ack, wnd, len) && s.dupAcks + 1 >= 3; var half := Max(s.outstanding / 2, 2);
      if third && Covered(s) then
        rtx && t == s.(ssthresh := half, cwnd := half + 3, dupAcks := 0,
                       fr := Recovery(true, s.una, s.nxt - 1, half + 3 + s.outstanding))
      else
        !rtx && t == s.(dupAcks := if Duplicate(s, ack, wnd, len) && !third then s.dupAcks + 1 else 0)
  {
    hide Ledger, Labels, Total;
    LessThanExact(ack, s.una);
    if ack == s.una {
      LessThanExact(ack, s.nxt);
    }
    if ack == s.una && s.fr.last >= ack {
      LessThanExact(s.fr.last, ack);
    } else {
      WireGap(s.fr.last, ack);
    }
  }

  /** In recovery: an acknowledgement beyond fr.last ends it at ssthresh; a repetition of the first
    * number raises the window by one, up to its limit; a later number that is still within fr.last
    * asks for a retransmission. Nothing else does anything. */
  lemma InRecovery(base: int, s: State, m: nat, ack: int, wnd: int, len: nat)
    requires Core(base, s, m) && -HALF <= ack - s.una < HALF && s.fr.active
    ensures var (t, rtx) := CheckDuplicate(Unbounded, s, ack, wnd, len);
      if s.fr.last < ack <= s.nxt then
        !rtx && t == s.(cwnd := s.ssthresh, dupAcks := 0, fr := Recovery(false, 0, s.nxt - 1, 0))
      else if s.una <= ack <= s.fr.last && len == 0 && wnd == s.wnd then
        if ack == s.fr.first then !rtx && t == s.(cwnd := Min(s.cwnd + 1, s.fr.maxCwnd))
        else rtx && t == s.(fr := s.fr.(first := ack), dupAcks := 0)
      else !rtx && t == s
  {
    hide Wire, Ledger, Labels, Total, Eq, InRange, LessThan;
    InRangeExact(ack, s.una, s.nxt + 1);
    if s.una <= ack <= s.nxt {
      LessThanExact(s.fr.last, ack);
      LessThanExact(ack, s.fr.first);
    }
  }

  // ----- what is retransmitted

  /** The first packet sent between s and t is the first segment that t has not acknowledged: a
    * piece of the stream that begins at t.una, or the FIN. */
  ghost predicate ResendsFront(base: int, s: State, t: State) {
    && |s.out| < |t.out| && s.out <= t.out && base <= t.una
    && var p := t.out[|s.out|]; var rest := Drop(s.written, t.una - base);
    && p.data <= rest && (if p.fin then rest == [] && s.sndClosed else |p.data| > 0) && p.num <= t.una
  }

  lemma FrontOfStream(base: int, s: State, m: nat)
    requires Core(base, s, m) && |s.list| > 0 && m > 0
    ensures var g := s.list[0]; var rest := Drop(s.written, s.una - base);
      && base <= s.una && g.data <= rest && g.num <= s.una
      && if g.mark.Fin? then rest == [] && s.sndClosed else |g.data| > 0
  {
    hide Wire, Total, Bytes, SentOk, Congestion, Recovering;
    LedgerBytes(base, s);
    FrontMarks(s, m);
    FrontNumber(s, m);
    BytesAppend(s.list, s.queue);
    BytesFrom(s.list, 0);
    assert s.list[0..] == s.list;
    if s.list[0].mark.Fin? {
      assert (s.list + s.queue)[0] == s.list[0];
      assert |s.list + s.queue| == 1;
      assert s.list + s.queue == [s.list[0]];
      BytesOne(s.list[0]);
    }
  }

  lemma FrontNumber(s: State, m: nat)
    requires Labels(s, m) && m > 0
    ensures s.list[0].num <= s.una
  {
    assert SentOk(s.una + Off(s.list, 0), s.list[0]);
    assert s.list[..0] == [];
  }

  lemma AnyInFlight(base: int, s: State, m: nat)
    requires Core(base, s, m) && s.una < s.nxt
    ensures m > 0 && |s.list| > 0
  {
    hide Wire, Ledger;
    assert s.list[..0] == [];
    TotalNone();
  }

  /** Whenever duplicates or a partial acknowledgement ask for it. */
  lemma Retransmits(base: int, s: State, m: nat, ack: int, wnd: int, len: nat, now: int)
    requires Core(base, s, m) && -HALF <= ack - s.una < HALF && 0 <= wnd <= MAX_WND
    requires TakeAck(Unbounded, s, ack, wnd, len, now).1
    ensures ResendsFront(base, s, HandleAck(Unbounded, s, ack, wnd, len, now))
  {
    hide Wire, Core, Placed, TakeAck, SendData, Resend, WithinLimits, Exhausted;
    var a := TakeAckKeeps(base, s, m, ack, wnd, len, now);
    var u := TakeAck(Unbounded, s, ack, wnd, len, now).0;
    AnyInFlight(base, u, a);
    FrontOfStream(base, u, a);
    ResendKeeps(base, u, a, now);
    var x := SendDataKeeps(base, Resend(u, now), a, now);
  }

  /** The verdict does not depend on the RTT measurement, and the rest of the acknowledgement
    * leaves recovery alone. */
  lemma TakeAckReno(base: int, s: State, m: nat, ack: int, wnd: int, len: nat, now: int)
    requires Core(base, s, m) && -HALF <= ack - s.una < HALF
    ensures var (d, rtx) := CheckDuplicate(Unbounded, s, ack, wnd, len);
      var (t, r) := TakeAck(Unbounded, s, ack, wnd, len, now);
      r == rtx && t.fr == d.fr && t.ssthresh == d.ssthresh
      && (!(s.una < ack <= s.nxt) || d.fr.active ==> t.cwnd == d.cwnd)
      && (if s.una < ack <= s.nxt then t.dupAcks == 0 else t.dupAcks == d.dupAcks)
  {
    hide Wire, Ledger, Labels, Recovering, Congestion, Acknowledge, Judge, MeasureRtt;
    MeasureReno(s, ack, now, wnd, len);
    var v := CheckDuplicate(Unbounded, MeasureRtt(s, ack, now), ack, wnd, len).0.(wnd := wnd);
    InRangeExact(ack - 1, v.una, v.nxt);
    AcknowledgeElse(v, ack);
  }

  lemma MeasureReno(s: State, ack: int, now: int, wnd: int, len: nat)
    ensures var t := MeasureRtt(s, ack, now);
      && Judge(Unbounded, t, ack, wnd, len) == Judge(Unbounded, s, ack, wnd, len)
      && t.una == s.una && t.nxt == s.nxt
  {
    hide Wire, Estimate;
  }

  /** What an acknowledgement of something new leaves alone. */
  lemma AcknowledgeElse(s: State, ack: int)
    ensures var t := Acknowledge(s, ack);
      && t == s.(dupAcks := 0, timer := t.timer, una := ack, list := t.list, writeNext := t.writeNext,
                 outstanding := t.outstanding, bufUsed := t.bufUsed, fault := t.fault, cwnd := t.cwnd, caAck := t.caAck)
      && (s.fr.active ==> t.cwnd == s.cwnd)
  {
    hide Size, Pop, RenoUpdate, Acknowledge;
    AcknowledgeIsPopping(s, ack);
    var p := Popping(s, ack);
    RenoElse(p, s.outstanding - p.outstanding);
  }

  lemma HandleAckReno(base: int, s: State, m: nat, ack: int, wnd: int, len: nat, now: int)
    requires Core(base, s, m) && -HALF <= ack - s.una < HALF && 0 <= wnd <= MAX_WND
    ensures var u := TakeAck(Unbounded, s, ack, wnd, len, now).0; var t := HandleAck(Unbounded, s, ack, wnd, len, now);
      t.fr == u.fr && t.ssthresh == u.ssthresh && t.dupAcks == u.dupAcks && (u.fr.active ==> t.cwnd == u.cwnd)
      && t.una == (if s.una < ack <= s.nxt then ack else s.una)
  {
    hide Wire, Core, Placed, TakeAck, SendLoop, Resend, WithinLimits, Exhausted, Eq;
    var a := TakeAckKeeps(base, s, m, ack, wnd, len, now);
    var (u, rtx) := TakeAck(Unbounded, s, ack, wnd, len, now);
    if rtx {
      AnyInFlight(base, u, a);
      ResendKeeps(base, u, a, now);
    }
    var r := if rtx then Resend(u, now) else u;
    var x := SendDataKeeps(base, r, a, now);
    var y := SendLoopKeeps(base, RestartIdle(r, now), a, now) by { RestartIdleKeeps(base, r, a, now); }
  }

  /** Section 3.2 of RFC 6582, step 3, partial acknowledgement: one that advances without covering
    * all that was in flight when recovery began has the next missing segment sent again at once. */
  lemma PartialAckRetransmits(base: int, s: State, m: nat, ack: int, now: int)
    requires Core(base, s, m) && s.fr.active && s.una < ack <= s.fr.last
    ensures var t := HandleAck(Unbounded, s, ack, s.wnd, 0, now);
      && ResendsFront(base, s, t) && t.una == ack && t.fr == s.fr.(first := ack) && t.cwnd == s.cwnd
  {
    hide Wire, Ledger, Labels, TakeAck, HandleAck, CheckDuplicate, ResendsFront;
    InRecovery(base, s, m, ack, s.wnd, 0);
    TakeAckReno(base, s, m, ack, s.wnd, 0, now);
    HandleAckReno(base, s, m, ack, s.wnd, 0, now);
    Retransmits(base, s, m, ack, s.wnd, 0, now);
  }

  /** Step 2: the third duplicate has the first missing segment sent again, halves what may be in
    * flight, and notes what is. */
  lemma ThirdDuplicateRetransmits(base: int, s: State, m: nat, now: int)
    requires Core(base, s, m) && !s.fr.active && s.una < s.nxt && s.dupAcks + 1 >= 3 && Covered(s)
    ensures var t := HandleAck(Unbounded, s, s.una, s.wnd, 0, now); var half := Max(s.outstanding / 2, 2);
      && ResendsFront(base, s, t) && t.una == s.una && t.ssthresh == half && t.cwnd == half + 3 && t.dupAcks == 0
      && t.fr == Recovery(true, s.una, s.nxt - 1, half + 3 + s.outstanding)
  {
    hide Wire, Ledger, Labels, TakeAck, HandleAck, CheckDuplicate, ResendsFront;
    OutsideRecovery(base, s, m, s.una, s.wnd, 0);
    TakeAckReno(base, s, m, s.una, s.wnd, 0, now);
    HandleAckReno(base, s, m, s.una, s.wnd, 0, now);
    Retransmits(base, s, m, s.una, s.wnd, 0, now);
  }

  /** Each further duplicate, until the limit, lets one more segment out. */
  lemma DuplicateInflates(base: int, s: State, m: nat, now: int)
    requires Core(base, s, m) && s.fr.active && s.fr.first == s.una
    ensures var t := HandleAck(Unbounded, s, s.una, s.wnd, 0, now);
      t.cwnd == Min(s.cwnd + 1, s.fr.maxCwnd) && t.fr == s.fr && t.una == s.una
  {
    hide Wire, Ledger, Labels, TakeAck, HandleAck, CheckDuplicate;
    InRecovery(base, s, m, s.una, s.wnd, 0);
    TakeAckReno(base, s, m, s.una, s.wnd, 0, now);
    HandleAckReno(base, s, m, s.una, s.wnd, 0, now);
  }

  /** Three duplicates in a row, no more and no fewer: the first two leave the list's front where it
    * is, the third sends it again. */
  lemma FirstTwoOnlyCount(base: int, s: State, m: nat, now: int)
    requires Core(base, s, m) && !s.fr.active && s.una < s.nxt && s.dupAcks + 1 < 3
    ensures var t := HandleAck(Unbounded, s, s.una, s.wnd, 0, now);
      && t.dupAcks == s.dupAcks + 1 && t.fr == s.fr && t.ssthresh == s.ssthresh && t.una == s.una
      && !TakeAck(Unbounded, s, s.una, s.wnd, 0, now).1
  {
    hide Wire, Ledger, Labels, TakeAck, HandleAck, CheckDuplicate;
    OutsideRecovery(base, s, m, s.una, s.wnd, 0);
    TakeAckReno(base, s, m, s.una, s.wnd, 0, now);
    HandleAckReno(base, s, m, s.una, s.wnd, 0, now);
  }

  // ----- what is taken off

  /** n whole segments lie before number x, and the next one, if any, does not. */
  ghost predicate Whole(s: State, x: int, n: nat) {
    n <= |s.list| && s.una + Off(s.list, n) <= x && (n < |s.list| ==> x < s.una + Off(s.list, n + 1))
  }

  lemma PopIsWhole(s: State, m: nat, ack: int, n: nat)
    requires Labels(s, m) && s.una < ack <= s.nxt && Whole(s, ack, n)
    ensures Pop(s.list, ack - s.una).count == n
  {
    hide Total, Pop, SentOk;
    AllSentOf(s, m);
    PopExact(s.list, ack - s.una, m);
    var p := Pop(s.list, ack - s.una);
    var c, left := p.count, ack - s.una;
    if c < |s.list| {
      OffNext(s.list, c);
    }
    if n < c {
      OffMonotone(s.list, n + 1, c);
    } else if c < n {
      OffMonotone(s.list, c + 1, n);
    }
  }

  /** An acknowledgement of n whole segments, outside or inside recovery: they leave the list and the
    * count of what is outstanding, the next segment to send stays the next, and the timer stops. */
  lemma AcknowledgeExact(base: int, s: State, m: nat, ack: int, n: nat)
    requires Core(base, s, m) && s.una < ack <= s.nxt && Whole(s, ack, n)
    ensures var t := Acknowledge(s, ack);
      && t.una == ack && t.outstanding == Max(0, s.outstanding - n) && t.dupAcks == 0 && !t.timer.mode.Enabled?
      && |t.list| == |s.list| - n && t.writeNext == Max(0, s.writeNext - n)
      && (forall k :: 0 < k < |t.list| ==> t.list[k] == s.list[k + n])
      && (n < |s.list| ==> var d := ack - s.una - Off(s.list, n);
            t.list[0] == s.list[n].(data := Drop(s.list[n].data, d)))
      && t.bufUsed == s.bufUsed - (ack - s.una)
  {
    hide Wire, Ledger, Off, Pop, RenoUpdate, Labels, SentOk;
    CoreReach(base, s, m);
    SizeExact(s.una, ack);
    AllSentOf(s, m);
    PopExact(s.list, ack - s.una, m);
    PopIsWhole(s, m, ack, n);
    PopOff(s.list, ack - s.una, Pop(s.list, ack - s.una), 0);
    RenoElse(Popping(s, ack), s.outstanding - Popping(s, ack).outstanding);
    AcknowledgeIsPopping(s, ack);
  }

  lemma RenoElse(s: State, n: int)
    ensures var t := RenoUpdate(s, n); t == s.(cwnd := t.cwnd, caAck := t.caAck)
  {
    hide RenoUpdate, Reno;
    RenoIs(s, n);
  }

  /** How the window grows for n segments, section 3.1 of RFC 5681: by n below the threshold; by one
    * for each full window of segments from there on, the rest counted for later. */
  lemma AcknowledgeGrows(base: int, s: State, m: nat, ack: int, n: nat)
    requires Core(base, s, m) && s.una < ack <= s.nxt && Whole(s, ack, n)
    ensures var t := Acknowledge(s, ack);
      && (s.fr.active ==> t.cwnd == s.cwnd && t.caAck == s.caAck)
      && (!s.fr.active && s.cwnd + n < s.ssthresh ==> t.cwnd == s.cwnd + n && t.caAck == s.caAck)
      && (!s.fr.active && s.cwnd < s.ssthresh <= s.cwnd + n ==>
            Counts(s.ssthresh, s.cwnd + n - s.ssthresh, t.cwnd, t.caAck))
      && (!s.fr.active && s.ssthresh <= s.cwnd ==> Counts(s.cwnd, s.caAck + n, t.cwnd, t.caAck))
  {
    hide Wire, Ledger, Total, Pop, Grow, Labels, SentOk, Reno, Counts;
    CoreReach(base, s, m);
    SizeExact(s.una, ack);
    PopIsWhole(s, m, ack, n);
    AcknowledgeIsPopping(s, ack);
    RenoIs(Popping(s, ack), n);
    RenoCounts(s.cwnd, s.ssthresh, s.caAck, n);
  }

  /** From window c with `seen` segments counted: one more for each c of them. */
  ghost predicate Counts(c: int, seen: int, cwnd: int, ca: int) {
    if seen < c then cwnd == c && ca == seen
    else cwnd > c && (cwnd - c) * c <= seen < (cwnd - c + 1) * c && ca == seen % cwnd
  }

  lemma RenoCounts(cwnd: int, ssthresh: int, ca: int, n: nat)
    requires cwnd >= 1 && ca >= 0
    ensures var (c, a) := Reno(cwnd, ssthresh, ca, n);
      && (cwnd + n < ssthresh ==> c == cwnd + n && a == ca)
      && (cwnd < ssthresh <= cwnd + n ==> Counts(ssthresh, cwnd + n - ssthresh, c, a))
      && (ssthresh <= cwnd ==> Counts(cwnd, ca + n, c, a))
  {
    if cwnd >= ssthresh {
      GrowCounts(cwnd, ca + n);
    } else if cwnd + n > ssthresh {
      GrowCounts(ssthresh, cwnd + n - ssthresh);
    }
  }

  lemma GrowCounts(c: int, seen: int)
    requires c >= 1 && seen >= 0
    ensures var (d, ca) := Grow(c, seen); Counts(c, seen, d, ca)
  {
    if seen >= c {
      Quotient(seen, c);
    }
  }

  /** A full flight acknowledged in slow start doubles the window. */
  lemma SlowStartDoubles(base: int, s: State, m: nat)
    requires Core(base, s, m) && !s.fr.active && m == s.cwnd && 2 * s.cwnd < s.ssthresh && s.una < s.nxt
    ensures Acknowledge(s, s.nxt).cwnd == 2 * s.cwnd
  {
    hide Wire, Ledger, Total, Acknowledge;
    if m < |s.list| {
      OffNext(s.list, m);
    }
    AcknowledgeGrows(base, s, m, s.nxt, m);
  }

  /** What an acknowledgement sends: the front of the list if it asks for that, and then what lies
    * from the next segment on. Nothing else goes out again. */
  lemma HandleAckSends(base: int, s: State, m: nat, ack: int, wnd: int, len: nat, now: int, n: nat)
    requires Core(base, s, m) && -HALF <= ack - s.una < HALF && 0 <= wnd <= MAX_WND
    requires if s.una < ack <= s.nxt then Whole(s, ack, n) else n == 0
    ensures var rtx := CheckDuplicate(Unbounded, s, ack, wnd, len).1;
      var t := HandleAck(Unbounded, s, ack, wnd, len, now); var next := Max(0, s.writeNext - n);
      && next <= t.writeNext <= |t.list|
      && if rtx then ResendsFront(base, s, t) && t.out == s.out + [t.out[|s.out|]] + Wired(t.list[next..t.writeNext])
         else t.out == s.out + Wired(t.list[next..t.writeNext])
  {
    hide Wire, Core, Placed, TakeAck, SendData, Resend, WithinLimits, Exhausted, CheckDuplicate, Whole, HandleAck,
      ResendsFront;
    var a := TakeAckKeeps(base, s, m, ack, wnd, len, now);
    TakeAckCursor(base, s, m, ack, wnd, len, now, n);
    TakeAckReno(base, s, m, ack, wnd, len, now);
    var (u, rtx) := TakeAck(Unbounded, s, ack, wnd, len, now);
    HandleAckIs(s, ack, wnd, len, now);
    if rtx {
      Retransmits(base, s, m, ack, wnd, len, now);
      AnyInFlight(base, u, a);
      ResendKeeps(base, u, a, now);
      SendDataExact(base, Resend(u, now), a, now);
    } else {
      SendDataExact(base, u, a, now);
    }
  }

  lemma HandleAckIs(s: State, ack: int, wnd: int, len: nat, now: int)
    ensures var (u, rtx) := TakeAck(Unbounded, s, ack, wnd, len, now);
      HandleAck(Unbounded, s, ack, wnd, len, now) == SendData(Unbounded, if rtx then Resend(u, now) else u, now)
  {
    hide TakeAck, SendData, Resend;
  }

  lemma TakeAckCursor(base: int, s: State, m: nat, ack: int, wnd: int, len: nat, now: int, n: nat)
    requires Core(base, s, m) && -HALF <= ack - s.una < HALF && 0 <= wnd <= MAX_WND
    requires if s.una < ack <= s.nxt then Whole(s, ack, n) else n == 0
    ensures TakeAck(Unbounded, s, ack, wnd, len, now).0.writeNext == Max(0, s.writeNext - n)
  {
    hide Wire, Ledger, Labels, Total, Judge, MeasureRtt, Acknowledge;
    MeasureKeeps(s, ack, now);
    var a := MeasureRtt(s, ack, now);
    LedgerSame(base, s, a, m);
    CheckDuplicateKeeps(base, a, m, ack, wnd, len);
    var d := CheckDuplicate(Unbounded, a, ack, wnd, len).0;
    var v := d.(wnd := wnd);
    LedgerSame(base, s, v, m);
    InRangeExact(ack - 1, v.una, v.nxt);
    if s.una < ack <= s.nxt {
      AckCursor(base, v, m, ack, n) by { WholeSame(s, v, ack, n); }
    }
  }

  lemma WholeSame(s: State, t: State, x: int, n: nat)
    requires Whole(s, x, n) && t.una == s.una && t.list == s.list
    ensures Whole(t, x, n)
  {
    hide Total;
  }

  /** The cursor does not depend on recovery. */
  lemma AckCursor(base: int, s: State, m: nat, ack: int, n: nat)
    requires Ledger(base, s) && Labels(s, m) && Reach(base, s) && s.una < ack <= s.nxt && Whole(s, ack, n)
    ensures Acknowledge(s, ack).writeNext == Max(0, s.writeNext - n)
  {
    hide Wire, Ledger, Total, Pop, Grow, Labels, SentOk;
    SizeExact(s.una, ack);
    PopIsWhole(s, m, ack, n);
    RenoElse(Popping(s, ack), s.outstanding - Popping(s, ack).outstanding);
    AcknowledgeIsPopping(s, ack);
  }

  // ----- the round-trip estimate

  /** q is a / b rounded down. */
  predicate Floor(q: int, a: int, b: int) {
    b * q <= a < b * q + b
  }

  /** Section 2 of RFC 6298, with alpha an eighth and beta a quarter, on integers. */
  lemma EstimateExact(s: State, rtt: int)
    requires s.srtt >= 0 && rtt >= 0 && s.rttvar >= 0
    ensures var t := UpdateRto(s, rtt); var diff := if s.srtt < rtt then rtt - s.srtt else s.srtt - rtt;
      && t.srttInited && t.rto == Max(t.srtt + 4 * t.rttvar, 200_000_000)
      && (if s.srttInited then Floor(t.srtt, 7 * s.srtt + rtt, 8) && Floor(t.rttvar, 3 * s.rttvar + diff, 4)
          else t.srtt == rtt && Floor(t.rttvar, rtt, 2))
  {
  }

  /** An acknowledgement takes a sample exactly when it covers the number being measured, from the
    * time that number was last sent; the next number to be measured is the next to be sent. */
  lemma SampleExact(s: State, ack: int, wnd: int, len: nat, now: int)
    requires -HALF <= s.rttNum - ack < HALF
    ensures var t := TakeAck(Unbounded, s, ack, wnd, len, now).0;
      if s.rttNum < ack then
        var e := UpdateRto(s, now - s.rttTime);
        t.srtt == e.srtt && t.rttvar == e.rttvar && t.rto == e.rto && t.rttNum == s.nxt
      else t.srtt == s.srtt && t.rttvar == s.rttvar && t.rto == s.rto && t.rttNum == s.rttNum
  {
    hide Wire, LessThan, Judge, Acknowledge, InRange, Estimate;
    LessThanExact(s.rttNum, ack);
    var d := CheckDuplicate(Unbounded, MeasureRtt(s, ack, now), ack, wnd, len).0;
    AcknowledgeElse(d.(wnd := wnd), ack);
  }
}
