/** What the sender must do, where the invariants only say what it may: retransmit after a
  * timeout and after duplicate acknowledgements, and open its window.
  */
module SenderProgress {
  import opened Packets
  import opened Seqnum
  import opened Sender
  import opened SenderProofs
  import opened SenderEvents

  /** With room for one segment and writeNext at an open front, sendData sends exactly one. */
  lemma SendsOne(s: State, now: int)
    requires |s.list| > 0 && s.writeNext == 0 && s.outstanding == 0 && s.cwnd == 1 && s.maxPayload >= 1
    requires s.list[0].mark.Data? && |s.list[0].data| > 0 && Wire(WindowEnd(Unbounded, s) - s.list[0].num) > 0
    requires LessThan(s.list[0].num, WindowEnd(Unbounded, s))
    ensures var t := SendLoop(Unbounded, s, now); var g := s.list[0]; var n := Piece(Unbounded, s, g);
      n >= 1 && t.out == s.out + [Packet(g.num, if |g.data| > n then g.data[..n] else g.data, false)]
  {
    hide Wire, Cut;
    var g := s.list[0];
    assert Numbered(s, g) == g;
    assert SendOne(Unbounded, s, now) == Go(SendBytes(Unbounded, s, g, now));
    var u := SendBytes(Unbounded, s, g, now);
    assert u.outstanding == 1 && u.cwnd == 1;
    assert SendLoop(Unbounded, u, now) == u;
  }

  /** After an expiry, if data is unacknowledged and the window is open at it, the first segment
    * goes out again: from its first byte, as much of it as fits, and nothing else. */
  lemma TimeoutResends(base: int, s: State, m: nat, now: int)
    requires Rest(base, s, m) && s.una < s.nxt && s.rto < GIVE_UP_RTO
    requires s.timer.(wake := false).CheckExpiration(now).1
    requires |s.list| > 0 ==> |s.list[0].data| > 0 && s.list[0].num < s.una + s.wnd
    ensures var (t, alive) := TimerExpired(Unbounded, s, now);
      && alive && |s.list| > 0 && s.out <= t.out && var g := s.list[0]; var d := t.out[|s.out|..];
      && |d| == 1 && d[0].num == g.num && !d[0].fin && d[0].data != [] && d[0].data <= g.data
  {
    hide Wire, Ledger, SendLoop, Piece, WindowEnd, LessThan, Total;
    FrontSent(base, s, m);
    var e := s.(timer := s.timer.(wake := false).CheckExpiration(now).0);
    var b := Backoff(Unbounded, e);
    WindowOpen(base, s, m);
    var r := RestartIdle(b, now);
    assert r == b;
    SameWindow(s, b);
    SendsOne(b, now);
    var t := ArmTimer(SendLoop(Unbounded, b, now), now);
    assert t.out[|s.out|..] == SendLoop(Unbounded, b, now).out[|s.out|..];
  }

  lemma SameWindow(s: State, t: State)
    requires t.una == s.una && t.wnd == s.wnd
    ensures WindowEnd(Unbounded, t) == WindowEnd(Unbounded, s)
  {
  }

  lemma FrontSent(base: int, s: State, m: nat)
    requires Core(base, s, m) && s.una < s.nxt
    ensures |s.list| > 0 && m > 0 && !s.list[0].mark.Unset? && (s.list[0].mark.Fin? <==> |s.list[0].data| == 0)
    ensures s.list[0].num <= s.una && s.una - s.list[0].num < MAX_SEGMENT && s.maxPayload >= 1 && 0 <= s.wnd <= MAX_WND
  {
    hide Wire, Ledger;
    assert s.list[..0] == [];
    TotalNone();
    assert SentOk(s.una + Off(s.list, 0), s.list[0]);
  }

  lemma WindowOpen(base: int, s: State, m: nat)
    requires Core(base, s, m) && s.una < s.nxt && s.list[0].num < s.una + s.wnd && |s.list| > 0
    ensures LessThan(s.list[0].num, WindowEnd(Unbounded, s)) && Wire(WindowEnd(Unbounded, s) - s.list[0].num) > 0
  {
    hide Ledger, Labels, Total;
    FrontSent(base, s, m);
    LessThanExact(s.list[0].num, s.una + s.wnd);
    SizeExact(s.list[0].num, s.una + s.wnd);
  }

  /** When duplicate acknowledgements or a partial one ask for it, the first segment that is not
    * acknowledged goes out before anything else, whole. */
  lemma FastRetransmits(base: int, s: State, m: nat, ack: int, wnd: int, len: nat, now: int)
    requires Core(base, s, m) && -HALF <= ack - s.una < HALF && 0 <= wnd <= MAX_WND
    requires TakeAck(Unbounded, s, ack, wnd, len, now).1
    ensures var u := TakeAck(Unbounded, s, ack, wnd, len, now).0; var t := HandleAck(Unbounded, s, ack, wnd, len, now);
      && |u.list| > 0 && |t.out| > |s.out| && s.out <= t.out
      && t.out[|s.out|] == Packet(u.list[0].num, u.list[0].data, u.list[0].mark.Fin?)
  {
    hide Wire, Core, Placed, TakeAck, SendData, Resend, WithinLimits, Exhausted;
    var a := TakeAckKeeps(base, s, m, ack, wnd, len, now);
    var u := TakeAck(Unbounded, s, ack, wnd, len, now).0;
    ResendKeeps(base, u, a, now) by { CoreReach(base, u, a); }
    var x := SendDataKeeps(base, Resend(u, now), a, now);
  }

  /** Acknowledging in two steps takes from the list what one step takes, and counts as much, even
    * when the first ends in the middle of a segment. */
  lemma {:induction false} PopTwice(list: seq<Segment>, a: nat, b: nat)
    requires !Pop(list, a).fault
    ensures var p := Pop(list, a); var q := Pop(p.list, b);
      Pop(list, a + b) == q.(count := p.count + q.count)
    decreases |list|
  {
    if a > 0 {
      var len := list[0].LogicalLen();
      if len > a {
        var cut := [list[0].(data := Drop(list[0].data, a))] + list[1..];
        assert cut[1..] == list[1..] && cut[0].LogicalLen() == len - a;
        if len > a + b && b > 0 {
          assert Drop(Drop(list[0].data, a), b) == Drop(list[0].data, a + b);
        }
      } else {
        PopTwice(list[1..], a - len, b);
      }
    }
  }

  /** Reno on the three numbers it reads: the next window and count. */
  ghost function Reno(cwnd: int, ssthresh: int, ca: int, n: int): (int, int) {
    if cwnd >= ssthresh then Grow(cwnd, ca + n)
    else if cwnd + n < ssthresh then (cwnd + n, ca)
    else if cwnd + n == ssthresh then (ssthresh, 0)
    else Grow(ssthresh, n - (ssthresh - cwnd))
  }

  lemma RenoIs(s: State, n: int)
    ensures var (c, ca) := Reno(s.cwnd, s.ssthresh, s.caAck, n); RenoUpdate(s, n) == s.(cwnd := c, caAck := ca)
  {
    hide Grow;
  }

  lemma SlowStartAddsUp(cwnd: int, ssthresh: int, ca: int, j: nat, k: nat)
    requires cwnd < ssthresh && cwnd + j <= ssthresh
    ensures var (c, a) := Reno(cwnd, ssthresh, ca, j); Reno(c, ssthresh, a, k) == Reno(cwnd, ssthresh, ca, j + k)
  {
  }

  /** In slow start it does not matter how acknowledgements are grouped: two in order have the
    * effect of the later one alone, on the window and on everything else. */
  lemma AcksAddUp(s: State, a: int, b: int)
    requires s.una <= a <= b < s.una + HALF && !s.fr.active && !Pop(s.list, a - s.una).fault
    requires s.cwnd < s.ssthresh && s.cwnd + Pop(s.list, a - s.una).count <= s.ssthresh
    ensures Acknowledge(Acknowledge(s, a), b) == Acknowledge(s, b)
  {
    hide Wire, Pop, RenoUpdate, Reno;
    SizeExact(s.una, a);
    SizeExact(a, b);
    SizeExact(s.una, b);
    var p := Pop(s.list, a - s.una);
    var q := Pop(p.list, b - a);
    PopTwice(s.list, a - s.una, b - a);
    SlowStartAddsUp(s.cwnd, s.ssthresh, s.caAck, p.count, q.count);
    RenoIs(TakeOff(s, a, a - s.una, p), p.count);
    RenoIs(TakeOff(Acknowledge(s, a), b, b - a, q), q.count);
    RenoIs(TakeOff(s, b, b - s.una, Pop(s.list, b - s.una)), p.count + q.count);
  }

  /** At the threshold or beyond, one more for every window of segments acknowledged, and none of
    * the acknowledgements forgotten but for the remainder's change of divisor. */
  lemma AvoidanceCounts(s: State, acked: int)
    requires s.cwnd >= 1 && s.caAck >= 0 && acked >= 0
    ensures var t := Avoidance(s, acked); var n := s.caAck + acked;
      if n < s.cwnd then t.cwnd == s.cwnd && t.caAck == n
      else t.cwnd > s.cwnd && (t.cwnd - s.cwnd) * s.cwnd <= n < (t.cwnd - s.cwnd + 1) * s.cwnd && 0 <= t.caAck < t.cwnd
  {
    var n := s.caAck + acked;
    if n >= s.cwnd {
      Quotient(n, s.cwnd);
    }
  }

  lemma Quotient(n: int, d: int)
    requires n >= d >= 1
    ensures n / d >= 1 && (n / d) * d <= n < (n / d + 1) * d
  {
    DivBounds(n, d);
    assert n == (n / d) * d + n % d;
  }

  /** The smoothed round-trip time lies between the old one and the measurement, and the timeout
    * is at least the floor and covers four deviations. */
  lemma RttBetween(s: State, rtt: int)
    requires s.srtt >= 0 && rtt >= 0 && s.rttvar >= 0
    ensures var t := UpdateRto(s, rtt);
      && t.srttInited && t.rttvar >= 0 && t.rto >= MIN_RTO && t.rto >= t.srtt + 4 * t.rttvar
      && (s.srttInited ==> Min(s.srtt, rtt) <= t.srtt <= Max(s.srtt, rtt))
      && (!s.srttInited ==> t.srtt == rtt)
  {
  }
}
