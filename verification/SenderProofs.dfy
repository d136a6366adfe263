/** What the sender keeps, on unbounded numbers.
  *
  * First for acknowledgements and windows of any value: the ledger of accepted bytes, the
  * reach of the numbers, recovery, the timer, and that no panic is reachable. Then, when
  * acknowledgements name ends of segments that were sent, that every segment's number is
  * its place in the stream.
  */
module SenderProofs {
  import opened Packets
  import opened Seqnum
  import opened Sender

  const MAX_SEGMENT: int := 0xffff
  const MAX_WND: int := 0x3fff_c000
  const SPAN: int := MAX_WND + 1

  // ----- lists of segments as pieces of a stream; a FIN counts one

  function Len(g: Segment): nat {
    if |g.data| == 0 then 1 else |g.data|
  }

  function Total(list: seq<Segment>): nat {
    if |list| == 0 then 0 else Len(list[0]) + Total(list[1..])
  }

  function Bytes(list: seq<Segment>): seq<byte> {
    if |list| == 0 then [] else list[0].data + Bytes(list[1..])
  }

  lemma {:induction false} TotalAppend(a: seq<Segment>, b: seq<Segment>)
    ensures Total(a + b) == Total(a) + Total(b)
    decreases |a|
  {
    if |a| == 0 {
      assert a + b == b;
    } else {
      assert (a + b)[1..] == a[1..] + b;
      TotalAppend(a[1..], b);
    }
  }

  lemma {:induction false} BytesAppend(a: seq<Segment>, b: seq<Segment>)
    ensures Bytes(a + b) == Bytes(a) + Bytes(b)
    decreases |a|
  {
    if |a| == 0 {
      assert a + b == b;
    } else {
      assert (a + b)[1..] == a[1..] + b;
      BytesAppend(a[1..], b);
    }
  }

  /** Where segment k of the list starts, relative to the list. */
  function Off(list: seq<Segment>, k: nat): nat
    requires k <= |list|
  {
    Total(list[..k])
  }

  lemma TotalOne(g: Segment)
    ensures Total([g]) == Len(g)
  {
    assert [g][1..] == [];
  }

  lemma OffNext(list: seq<Segment>, k: nat)
    requires k < |list|
    ensures Off(list, k + 1) == Off(list, k) + Len(list[k])
    ensures Total(list) == Off(list, k + 1) + Total(list[k + 1..])
  {
    hide Total;
    assert list[..k + 1] == list[..k] + [list[k]];
    TotalAppend(list[..k], [list[k]]);
    TotalOne(list[k]);
    assert list == list[..k + 1] + list[k + 1..];
    TotalAppend(list[..k + 1], list[k + 1..]);
  }

  lemma BytesFrom(list: seq<Segment>, k: nat)
    requires k < |list|
    ensures Bytes(list[k..]) == list[k].data + Bytes(list[k + 1..])
  {
    assert list[k..][0] == list[k] && list[k..][1..] == list[k + 1..];
  }

  lemma BytesSplit(list: seq<Segment>, k: nat)
    requires k < |list|
    ensures Bytes(list) == Bytes(list[..k]) + (list[k].data + Bytes(list[k + 1..]))
  {
    assert list == list[..k] + list[k..];
    BytesAppend(list[..k], list[k..]);
    BytesFrom(list, k);
  }

  lemma Rejoin(d: seq<byte>, n: nat, rest: seq<byte>)
    requires n <= |d|
    ensures d[..n] + (d[n..] + rest) == d + rest
  {
  }

  lemma {:induction false} OffMonotone(list: seq<Segment>, i: nat, j: nat)
    requires i <= j <= |list|
    ensures Off(list, i) + (j - i) <= Off(list, j) <= Total(list)
    decreases j - i
  {
    if i < j {
      OffNext(list, i);
      OffMonotone(list, i + 1, j);
    } else {
      assert list == list[..j] + list[j..];
      TotalAppend(list[..j], list[j..]);
    }
  }

  /** Only the last segment may be a FIN, which has no data. */
  ghost predicate FinLast(list: seq<Segment>) {
    forall k :: 0 <= k < |list| - 1 ==> |list[k].data| > 0
  }

  lemma {:induction false} BytesLength(list: seq<Segment>)
    requires forall k :: 0 <= k < |list| ==> |list[k].data| > 0
    ensures |Bytes(list)| == Total(list)
    decreases |list|
  {
    if |list| > 0 {
      BytesLength(list[1..]);
    }
  }

  // ----- cutting a segment in two

  lemma CutShape(list: seq<Segment>, i: nat, g: Segment, n: nat)
    requires i < |list| && g.data == list[i].data && |g.data| > 0
    ensures var c := Cut(Unbounded, list, i, g, n); var extra := if |g.data| > n then 1 else 0;
      && |c| == |list| + extra && c[..i] == list[..i] && c[i + 1 + extra..] == list[i + 1..]
      && (extra == 1 ==> c[i] == g.(data := g.data[..n]) && c[i + 1] == Segment(g.data[n..], g.num + n, g.mark))
      && (extra == 0 ==> c[i] == g)
  {
  }

  lemma CutOffsets(list: seq<Segment>, i: nat, g: Segment, n: nat)
    requires i < |list| && g.data == list[i].data && |g.data| > 0 && n > 0
    ensures var c := Cut(Unbounded, list, i, g, n); var extra := if |g.data| > n then 1 else 0;
      && |c| == |list| + extra
      && Off(c, i) == Off(list, i)
      && Off(c, i + 1) == Off(list, i) + (if |g.data| > n then n else |g.data|)
      && Off(c, i + 1 + extra) == Off(list, i + 1)
      && Total(c) == Total(list)
  {
    hide Cut, Total;
    CutShape(list, i, g, n);
    var c := Cut(Unbounded, list, i, g, n);
    OffNext(list, i);
    OffNext(c, i);
    if |g.data| > n {
      OffNext(c, i + 1);
    }
  }

  lemma CutBytes(list: seq<Segment>, i: nat, g: Segment, n: nat)
    requires i < |list| && g.data == list[i].data && |g.data| > 0 && n > 0
    ensures Bytes(Cut(Unbounded, list, i, g, n)) == Bytes(list)
  {
    hide Cut, Bytes;
    CutShape(list, i, g, n);
    var c := Cut(Unbounded, list, i, g, n);
    BytesSplit(list, i);
    BytesSplit(c, i);
    if |g.data| > n {
      BytesFrom(c, i + 1);
      assert c[i + 1 + 1..] == list[i + 1..];
      Rejoin(g.data, n, Bytes(list[i + 1..]));
    }
  }

  lemma Prefix(list: seq<Segment>, i: nat, k: nat)
    requires k <= i <= |list|
    ensures list[..k] == list[..i][..k]
  {
  }

  /** Every old place behind the cut is a place of the new list. */
  lemma CutPlace(list: seq<Segment>, i: nat, g: Segment, n: nat, k: nat)
    requires i < |list| && g.data == list[i].data && |g.data| > 0 && n > 0 && k <= |list|
    ensures var c := Cut(Unbounded, list, i, g, n); var extra := if |g.data| > n then 1 else 0;
      && |c| == |list| + extra
      && if k <= i then c[..k] == list[..k] && Off(c, k) == Off(list, k) else Off(c, k + extra) == Off(list, k)
  {
    hide Cut, Total;
    CutShape(list, i, g, n);
    CutOffsets(list, i, g, n);
    var c := Cut(Unbounded, list, i, g, n);
    var extra := if |g.data| > n then 1 else 0;
    if k <= i {
      Prefix(c, i, k);
      Prefix(list, i, k);
    } else {
      var tail := list[i + 1..k];
      assert list[..k] == list[..i + 1] + tail;
      TotalAppend(list[..i + 1], tail);
      assert c[..k + extra] == c[..i + 1 + extra] + c[i + 1 + extra..][..k - i - 1];
      assert tail == list[i + 1..][..k - i - 1];
      TotalAppend(c[..i + 1 + extra], tail);
    }
  }

  // ----- the invariant

  /** The ledger: what the list and the queue hold are exactly the bytes accepted and not yet
    * acknowledged, in order, and their numbers run from una to the end of what was queued. */
  ghost predicate Ledger(base: int, s: State) {
    && base <= s.una
    && s.nxtList == s.una + Total(s.list)
    && s.inQueue == Total(s.queue)
    && base + |s.written| + (if s.sndClosed then 1 else 0) == s.nxtList + s.inQueue
    && Bytes(s.list + s.queue) == Drop(s.written, s.una - base)
    && FinLast(s.list + s.queue)
    && (|s.list + s.queue| > 0 && |(s.list + s.queue)[|s.list + s.queue| - 1].data| == 0 ==> s.sndClosed)
    && (forall g :: g in s.queue ==> g.mark.Unset?)
  }

  /** A segment at place `pos` that was sent: its number may lag behind its place, never lead,
    * and it was no longer than a segment may be. */
  ghost predicate SentOk(pos: int, g: Segment) {
    && !g.mark.Unset? && (g.mark.Fin? <==> |g.data| == 0)
    && g.num <= pos && pos + Len(g) - g.num <= MAX_SEGMENT
  }

  /** The first m segments are those before nxt; the next one has its number, if any, at nxt;
    * the others have none; and all before writeNext were sent. */
  ghost predicate Labels(s: State, m: nat) {
    && s.writeNext <= m <= |s.list|
    && s.una + Off(s.list, m) == s.nxt
    && (forall k :: 0 <= k < m ==> SentOk(s.una + Off(s.list, k), s.list[k]))
    && (forall k :: m < k < |s.list| ==> s.list[k].mark.Unset?)
    && (m < |s.list| ==> var g := s.list[m]; g.mark.Unset? || (g.mark.Data? && |g.data| > 0 && g.num == s.nxt))
  }

  ghost predicate FinSent(base: int, s: State) {
    s.sndClosed && s.nxt == base + |s.written| + 1
  }

  ghost predicate Reach(base: int, s: State) {
    && 0 <= s.wnd <= MAX_WND && 1 <= s.maxPayload <= MAX_SEGMENT
    && s.una <= s.nxt <= s.una + MAX_WND + (if FinSent(base, s) then 1 else 0)
  }

  ghost predicate Congestion(s: State) {
    s.cwnd >= 1 && s.ssthresh >= 2 && s.outstanding >= 0 && s.caAck >= 0 && s.dupAcks >= 0 && s.rto >= MIN_RTO
  }

  /** fr.last is always behind nxt; while recovering, fr.first <= una <= fr.last, no further
    * apart than a window, and the congestion window is between ssthresh + 3 and fr.maxCwnd. */
  ghost predicate Recovering(s: State) {
    && s.fr.last < s.nxt
    && (s.fr.active ==> s.fr.first <= s.una <= s.fr.last < s.fr.first + SPAN)
    && (s.fr.active ==> s.ssthresh + 3 <= s.cwnd <= s.fr.maxCwnd)
  }

  ghost predicate Core(base: int, s: State, m: nat) {
    Ledger(base, s) && Labels(s, m) && Reach(base, s) && Congestion(s) && Recovering(s) && !s.fault
  }

  // ----- one turn of sendData

  lemma NumberExact(base: int, s: State, m: nat, i: nat)
    requires Core(base, s, m) && i < |s.list| && i <= m
    ensures var g := Numbered(s, s.list[i]);
      && g.num <= s.una + Off(s.list, i) <= s.nxt && s.una - MAX_SEGMENT <= g.num
      && (i == m ==> g.num == s.nxt)
      && (LessThan(g.num, WindowEnd(Unbounded, s)) <==> g.num < s.una + s.wnd)
      && (g.num < s.una + s.wnd ==> Size(g.num, WindowEnd(Unbounded, s)) == s.una + s.wnd - g.num)
  {
    hide Wire, Total, Ledger;
    var g := Numbered(s, s.list[i]);
    OffMonotone(s.list, i, m);
    LessThanExact(g.num, s.una + s.wnd);
    if g.num < s.una + s.wnd {
      SizeExact(g.num, s.una + s.wnd);
    }
  }

  /** Everything but the list, its cursor, nxt and the record of what was sent is as before. */
  ghost predicate SameButList(s: State, t: State) {
    t == s.(list := t.list, writeNext := t.writeNext, nxt := t.nxt, outstanding := t.outstanding,
            out := t.out, lastSend := t.lastSend, rttTime := t.rttTime)
  }

  lemma LedgerOfList(base: int, s: State, t: State)
    requires Ledger(base, s) && SameButList(s, t)
    requires Total(t.list) == Total(s.list) && Bytes(t.list) == Bytes(s.list)
    requires FinLast(t.list + t.queue)
    requires |t.list| > 0 && |s.list| > 0
    requires |t.list[|t.list| - 1].data| == 0 <==> |s.list[|s.list| - 1].data| == 0
    ensures Ledger(base, t)
  {
    hide Total, Bytes, FinLast;
    BytesAppend(s.list, s.queue);
    BytesAppend(t.list, t.queue);
  }

  lemma BumpExact(base: int, s: State, m: nat, end: int)
    requires Core(base, s, m) && s.una - MAX_SEGMENT <= end <= s.una + SPAN
    ensures Bump(s, end) == if s.nxt < end then s.(nxt := end) else s
  {
    hide Wire, Total, Ledger, Labels;
    LessThanExact(s.nxt, end);
  }

  /** The FIN is the last segment of all, so the panic is not reached. */
  lemma FinIsLast(base: int, s: State, m: nat)
    requires Core(base, s, m) && s.writeNext < |s.list| && |s.list[s.writeNext].data| == 0
    ensures s.writeNext == |s.list| - 1 && s.queue == [] && s.sndClosed
    ensures s.una + Off(s.list, s.writeNext) == base + |s.written|
    ensures s.writeNext < m ==> m == |s.list| && s.nxt == base + |s.written| + 1
  {
    hide Wire, Total, Bytes, SentOk, Congestion, Recovering;
    var i := s.writeNext;
    assert (s.list + s.queue)[i] == s.list[i];
    assert i == |s.list + s.queue| - 1;
    OffNext(s.list, i);
    assert s.list[i + 1..] == [] && s.queue == [];
    TotalNone();
  }

  lemma SendFinShape(base: int, s: State, m: nat, now: int)
    requires Core(base, s, m) && s.writeNext < |s.list| && |s.list[s.writeNext].data| == 0
    ensures var i := s.writeNext; var g := Numbered(s, s.list[i]); var t := SendFin(Unbounded, s, g, now);
      && SameButList(s, t) && t.outstanding == s.outstanding
      && t.out == s.out + [Packet(g.num, [], true)] && t.writeNext == i + 1
      && t.list == s.list[i := g.(mark := Fin)] && t.nxt == base + |s.written| + 1 && s.nxt <= t.nxt
      && g.num <= s.una + Off(s.list, i) && s.una + Off(s.list, i) + 1 - g.num <= MAX_SEGMENT
      && (i == m ==> g.num == s.nxt)
  {
    hide Wire, Total, Bytes, Ledger, Congestion, Recovering;
    var i := s.writeNext;
    var g := Numbered(s, s.list[i]);
    FinIsLast(base, s, m);
    NumberExact(base, s, m, i);
    BumpExact(base, s, m, g.num + 1);
    if i < m {
      assert SentOk(s.una + Off(s.list, i), s.list[i]);
    }
  }

  lemma SendFinKeeps(base: int, s: State, m: nat, now: int)
    requires Core(base, s, m) && s.writeNext < |s.list| && |s.list[s.writeNext].data| == 0
    ensures var g := Numbered(s, s.list[s.writeNext]); var t := SendFin(Unbounded, s, g, now);
      Core(base, t, |t.list|)
  {
    hide Wire, Total, Bytes, SendFin, SentOk;
    var i := s.writeNext;
    var g := Numbered(s, s.list[i]);
    var f := g.(mark := Fin);
    FinIsLast(base, s, m);
    SendFinShape(base, s, m, now);
    var t := SendFin(Unbounded, s, g, now);
    SetMark(s.list, i, f);
    assert t.list + t.queue == t.list && s.list + s.queue == s.list;
    LedgerOfList(base, s, t);
    FinSentOk(s.una + Off(s.list, i), f);
    forall k | 0 <= k < |t.list|
      ensures SentOk(t.una + Off(t.list, k), t.list[k])
    {
      SetMarkOff(s.list, i, f, k);
    }
    SetMarkOff(s.list, i, f, |s.list|);
    OffNext(s.list, i);
  }

  lemma FinSentOk(pos: int, f: Segment)
    requires f.mark.Fin? && |f.data| == 0 && f.num <= pos && pos + 1 - f.num <= MAX_SEGMENT
    ensures SentOk(pos, f)
  {
  }

  lemma TotalNone()
    ensures Total([]) == 0
  {
  }

  /** Giving a segment its flags moves nothing. */
  lemma SetMark(list: seq<Segment>, i: nat, f: Segment)
    requires i < |list| && f.data == list[i].data
    ensures Total(list[i := f]) == Total(list) && Bytes(list[i := f]) == Bytes(list)
    ensures Off(list[i := f], |list|) == Off(list, |list|)
  {
    hide Total, Bytes;
    var c := list[i := f];
    SetMarkOff(list, i, f, i);
    OffNext(list, i);
    OffNext(c, i);
    assert c[i + 1..] == list[i + 1..];
    BytesSplit(list, i);
    BytesSplit(c, i);
    assert c[..i] == list[..i];
    assert c[..|c|] == c && list[..|list|] == list;
  }

  lemma SetMarkOff(list: seq<Segment>, i: nat, f: Segment, k: nat)
    requires i < |list| && f.data == list[i].data && k <= |list|
    ensures Off(list[i := f], k) == Off(list, k)
  {
    hide Total;
    var c := list[i := f];
    if k <= i {
      assert c[..k] == list[..k];
    } else {
      assert list[..k] == list[..i] + [list[i]] + list[i + 1..k];
      assert c[..k] == list[..i] + [f] + list[i + 1..k];
      TotalAppend(list[..i] + [list[i]], list[i + 1..k]);
      TotalAppend(list[..i] + [f], list[i + 1..k]);
      TotalAppend(list[..i], [list[i]]);
      TotalAppend(list[..i], [f]);
      TotalOne(list[i]);
      TotalOne(f);
    }
  }

  // The segment at writeNext, with its number and flags, when it has data and may go out.
  ghost predicate Sendable(base: int, s: State, m: nat, g: Segment) {
    && Core(base, s, m) && s.writeNext < |s.list| && g == Numbered(s, s.list[s.writeNext])
    && |g.data| > 0 && LessThan(g.num, WindowEnd(Unbounded, s))
  }

  function Sent(g: Segment, n: nat): nat {
    if |g.data| > n then n else |g.data|
  }

  lemma PieceExact(base: int, s: State, m: nat, g: Segment)
    requires Sendable(base, s, m, g)
    ensures var n := Piece(Unbounded, s, g);
      && 1 <= n <= s.maxPayload && g.num + n <= s.una + s.wnd && g.mark.Data?
      && g.num <= s.una + Off(s.list, s.writeNext) && (s.writeNext == m ==> g.num == s.nxt == s.una + Off(s.list, m))
      && s.una - MAX_SEGMENT <= g.num && n == Min(s.maxPayload, s.una + s.wnd - g.num)
  {
    hide Wire, Total, Ledger;
    NumberExact(base, s, m, s.writeNext);
  }

  lemma CutFinLast(list: seq<Segment>, queue: seq<Segment>, i: nat, g: Segment, n: nat)
    requires i < |list| && g.data == list[i].data && |g.data| > 0 && n > 0 && FinLast(list + queue)
    ensures var c := Cut(Unbounded, list, i, g, n);
      FinLast(c + queue) && (|c[|c| - 1].data| == 0 <==> |list[|list| - 1].data| == 0)
  {
    hide Cut;
    CutShape(list, i, g, n);
    var c := Cut(Unbounded, list, i, g, n);
    var extra := if |g.data| > n then 1 else 0;
    forall k | 0 <= k < |c + queue| - 1
      ensures |(c + queue)[k].data| > 0
    {
      if k < i {
        assert c[k] == c[..i][k] == list[..i][k] == (list + queue)[k];
      } else if k > i + extra {
        assert k < |c| ==> c[k] == c[i + 1 + extra..][k - i - 1 - extra] == list[i + 1..][k - i - 1 - extra];
        assert (c + queue)[k] == (list + queue)[k - extra];
      }
    }
    if i < |list| - 1 {
      assert c[|c| - 1] == c[i + 1 + extra..][|list| - i - 2] == list[i + 1..][|list| - i - 2];
    }
  }

  /** Both parts of a segment that was sent, at their places, were sent. */
  lemma CutSent(pos: int, g: Segment, n: nat)
    requires SentOk(pos, g) && 0 < n < |g.data|
    ensures SentOk(pos, g.(data := g.data[..n])) && SentOk(pos + n, Segment(g.data[n..], g.num + n, g.mark))
  {
  }

  lemma CutLabelsOld(s: State, m: nat, g: Segment, n: nat, k: nat)
    requires Labels(s, m) && s.writeNext < m && g == s.list[s.writeNext] && |g.data| > 0 && n > 0
    ensures var c := Cut(Unbounded, s.list, s.writeNext, g, n); var extra := if |g.data| > n then 1 else 0;
      && |c| == |s.list| + extra
      && (k < m + extra ==> SentOk(s.una + Off(c, k), c[k]))
      && (m + extra <= k < |c| ==> c[k] == s.list[k - extra])
      && Off(c, m + extra) == Off(s.list, m)
  {
    hide Cut, Total, Off, SentOk;
    var i := s.writeNext;
    CutShape(s.list, i, g, n);
    CutOffsets(s.list, i, g, n);
    CutPlace(s.list, i, g, n, m);
    var c := Cut(Unbounded, s.list, i, g, n);
    var extra := if |g.data| > n then 1 else 0;
    OffNext(s.list, i);
    if |g.data| > n {
      CutSent(s.una + Off(s.list, i), g, n);
    }
    if k < i {
      CutPlace(s.list, i, g, n, k);
      assert c[k] == c[..i][k] == s.list[..i][k];
    } else if i + extra < k < |c| {
      assert c[k] == c[i + 1 + extra..][k - i - 1 - extra] == s.list[i + 1..][k - i - 1 - extra] == s.list[k - extra];
      CutPlace(s.list, i, g, n, k - extra);
    }
  }

  lemma CutLabelsNew(s: State, m: nat, g: Segment, n: nat, k: nat)
    requires Labels(s, m) && s.writeNext == m < |s.list| && g == Numbered(s, s.list[m]) && |g.data| > 0
    requires 0 < n <= MAX_SEGMENT && g.num == s.nxt && g.mark.Data?
    ensures var c := Cut(Unbounded, s.list, m, g, n); var extra := if |g.data| > n then 1 else 0;
      && |c| == |s.list| + extra
      && (k <= m ==> SentOk(s.una + Off(c, k), c[k]))
      && (m + 1 < k < |c| ==> c[k].mark.Unset?)
      && (m + 1 < |c| ==> c[m + 1].mark.Unset? || c[m + 1] == Segment(g.data[Sent(g, n)..], s.nxt + n, Data))
      && Off(c, m + 1) == Off(s.list, m) + Sent(g, n)
  {
    hide Cut, Total;
    CutShape(s.list, m, g, n);
    CutOffsets(s.list, m, g, n);
    var c := Cut(Unbounded, s.list, m, g, n);
    var extra := if |g.data| > n then 1 else 0;
    if k < m {
      CutPlace(s.list, m, g, n, k);
      assert c[k] == c[..m][k] == s.list[..m][k];
    } else if m + extra < k < |c| {
      assert c[k] == c[m + 1 + extra..][k - m - 1 - extra] == s.list[m + 1..][k - m - 1 - extra];
    }
    if extra == 0 && m + 1 < |c| {
      assert c[m + 1] == c[m + 1..][0] == s.list[m + 1..][0];
    }
  }

  lemma SendBytesForm(s: State, g: Segment, now: int)
    requires s.writeNext < |s.list|
    ensures var t := SendBytes(Unbounded, s, g, now); var n := Piece(Unbounded, s, g);
      && SameButList(s, t) && t.outstanding == s.outstanding + 1
      && t.out == s.out + [Packet(g.num, g.data[..Sent(g, n)], false)]
      && t.list == Cut(Unbounded, s.list, s.writeNext, g, n) && t.writeNext == s.writeNext + 1
      && t.nxt == Bump(s, g.num + Sent(g, n)).nxt
  {
    hide Wire, LessThan, Cut, Piece;
    assert g.data[..|g.data|] == g.data;
  }

  /** Sending data: what goes out is at most maxPayloadSize long and ends inside the window. */
  lemma SendBytesShape(base: int, s: State, m: nat, g: Segment, now: int)
    requires Sendable(base, s, m, g)
    ensures var t := SendBytes(Unbounded, s, g, now); var n := Piece(Unbounded, s, g);
      && SameButList(s, t) && t.outstanding == s.outstanding + 1
      && t.out == s.out + [Packet(g.num, g.data[..Sent(g, n)], false)]
      && 1 <= Sent(g, n) <= s.maxPayload && g.num + Sent(g, n) <= s.una + s.wnd
      && t.nxt == (if s.writeNext == m then s.nxt + Sent(g, n) else s.nxt) && g.num + Sent(g, n) <= t.nxt
      && t.list == Cut(Unbounded, s.list, s.writeNext, g, n) && t.writeNext == s.writeNext + 1
  {
    hide Wire, Total, Bytes, Cut, Piece, Ledger, Congestion, Recovering, SentOk, SendBytes, Bump, SameButList;
    var n := Piece(Unbounded, s, g);
    SendBytesForm(s, g, now);
    PieceExact(base, s, m, g);
    BumpExact(base, s, m, g.num + Sent(g, n));
    var i := s.writeNext;
    OffNext(s.list, i);
    if i < m {
      OffMonotone(s.list, i + 1, m);
      SentLength(s.una + Off(s.list, i), s.list[i]);
    }
  }

  lemma SentLength(pos: int, g: Segment)
    requires SentOk(pos, g)
    ensures !g.mark.Unset? && g.num <= pos && pos + Len(g) - g.num <= MAX_SEGMENT
  {
  }

  /** And it is as much of the segment as those two let. */
  lemma SendBytesSize(base: int, s: State, m: nat, g: Segment, now: int)
    requires Sendable(base, s, m, g)
    ensures var t := SendBytes(Unbounded, s, g, now);
      && |t.out| == |s.out| + 1 && t.out[|s.out|].num == g.num && t.out[|s.out|].data <= g.data
      && |t.out[|s.out|].data| == Min(|g.data|, Min(s.maxPayload, s.una + s.wnd - g.num)) >= 1
  {
    hide Wire, Total, Bytes, Cut, Piece, Ledger, Labels, SendBytes, Recovering, Congestion;
    PieceExact(base, s, m, g);
    SendBytesShape(base, s, m, g, now);
  }

  lemma SendBytesLedger(base: int, s: State, m: nat, g: Segment, now: int)
    requires Sendable(base, s, m, g)
    ensures Ledger(base, SendBytes(Unbounded, s, g, now))
  {
    hide Wire, Total, Bytes, Cut, Piece, FinLast, Labels, Reach, Congestion, Recovering;
    var i := s.writeNext;
    var n := Piece(Unbounded, s, g);
    PieceExact(base, s, m, g);
    CutShape(s.list, i, g, n);
    CutOffsets(s.list, i, g, n);
    CutBytes(s.list, i, g, n);
    CutFinLast(s.list, s.queue, i, g, n);
    SendBytesShape(base, s, m, g, now);
    LedgerOfList(base, s, SendBytes(Unbounded, s, g, now));
  }

  lemma SendBytesLabelsOld(s: State, m: nat, g: Segment, n: nat, t: State)
    requires Labels(s, m) && s.writeNext < m && g == s.list[s.writeNext] && |g.data| > 0 && n > 0
    requires t.una == s.una && t.nxt == s.nxt && t.writeNext == s.writeNext + 1
    requires t.list == Cut(Unbounded, s.list, s.writeNext, g, n)
    ensures Labels(t, if |g.data| > n then m + 1 else m)
  {
    hide Wire, Total, Cut, SentOk;
    var m' := if |g.data| > n then m + 1 else m;
    CutLabelsOld(s, m, g, n, m');
    forall k | 0 <= k < |t.list|
      ensures k < m' ==> SentOk(t.una + Off(t.list, k), t.list[k])
      ensures m' <= k ==> t.list[k] == s.list[k - (m' - m)]
    {
      CutLabelsOld(s, m, g, n, k);
    }
  }

  lemma SendBytesLabelsNew(s: State, m: nat, g: Segment, n: nat, t: State)
    requires Labels(s, m) && s.writeNext == m < |s.list| && g == Numbered(s, s.list[m]) && |g.data| > 0
    requires 0 < n <= MAX_SEGMENT && g.num == s.nxt && g.mark.Data?
    requires t.una == s.una && t.nxt == s.nxt + Sent(g, n) && t.writeNext == m + 1
    requires t.list == Cut(Unbounded, s.list, m, g, n)
    ensures Labels(t, m + 1)
  {
    hide Wire, Total, Cut, SentOk;
    CutLabelsNew(s, m, g, n, m);
    CutShape(s.list, m, g, n);
    forall k | 0 <= k < |t.list|
      ensures k < m + 1 ==> SentOk(t.una + Off(t.list, k), t.list[k])
      ensures m + 1 < k ==> t.list[k].mark.Unset?
    {
      CutLabelsNew(s, m, g, n, k);
    }
  }

  lemma SendBytesKeeps(base: int, s: State, m: nat, g: Segment, now: int) returns (m': nat)
    requires Sendable(base, s, m, g)
    ensures Core(base, SendBytes(Unbounded, s, g, now), m')
    ensures m' == if s.writeNext == m then m + 1 else if |g.data| > Piece(Unbounded, s, g) then m + 1 else m
  {
    hide Wire, Total, Bytes, Cut, Piece, SendBytes, SentOk, Ledger;
    var n := Piece(Unbounded, s, g);
    m' := if s.writeNext == m then m + 1 else if |g.data| > n then m + 1 else m;
    SendBytesLedger(base, s, m, g, now);
    SendBytesShape(base, s, m, g, now);
    PieceExact(base, s, m, g);
    if s.writeNext < m {
      assert SentOk(s.una + Off(s.list, s.writeNext), s.list[s.writeNext]);
      SentHasMark(s.una + Off(s.list, s.writeNext), s.list[s.writeNext]);
      SendBytesLabelsOld(s, m, g, n, SendBytes(Unbounded, s, g, now));
    } else {
      SendBytesLabelsNew(s, m, g, n, SendBytes(Unbounded, s, g, now));
    }
  }

  lemma SentHasMark(pos: int, g: Segment)
    requires SentOk(pos, g)
    ensures !g.mark.Unset?
  {
  }

  // ----- every number in its place

  /** e is where one of the first m segments starts, or where the m-th ends. */
  ghost predicate IsPlace(s: State, m: nat, e: int) {
    exists k :: 0 <= k <= m <= |s.list| && s.una + Off(s.list, k) == e
  }

  /** A segment that was sent is a slice of the stream; the FIN is at its end. */
  ghost predicate Slice(base: int, s: State, p: Packet) {
    && base <= p.num && p.End() <= s.nxt && |p.data| <= MAX_SEGMENT
    && (|p.data| > 0 ==> p.num + |p.data| <= base + |s.written|
                         && p.data == s.written[p.num - base..p.num - base + |p.data|])
    && (p.fin ==> p.data == [] && s.sndClosed && p.num == base + |s.written|)
  }

  ghost predicate SentSoFar(base: int, s: State, m: nat) {
    forall p :: p in s.out ==>
      Slice(base, s, p) && (p.LogicalLen() > 0 ==> p.End() <= s.una || IsPlace(s, m, p.End()))
  }

  ghost predicate Exact(s: State, m: nat) {
    m <= |s.list| && forall k :: 0 <= k < m ==> s.list[k].num == s.una + Off(s.list, k)
  }

  ghost predicate Placed(base: int, s: State, m: nat) {
    Exact(s, m) && SentSoFar(base, s, m)
  }

  lemma {:induction false} DataBytes(list: seq<Segment>, k: nat)
    requires k <= |list| && forall j :: 0 <= j < k ==> |list[j].data| > 0
    ensures |Bytes(list[..k])| == Off(list, k)
  {
    BytesLength(list[..k]);
  }

  /** A queued segment's data is the stream at the segment's place. */
  lemma DataInPlace(base: int, s: State, k: nat)
    requires Ledger(base, s) && k < |s.list| && |s.list[k].data| > 0
    ensures var at := s.una + Off(s.list, k) - base; var d := s.list[k].data;
      0 <= at && at + |d| <= |s.written| && s.written[at..at + |d|] == d
  {
    hide Total, Bytes, Ledger, Off;
    LedgerBytes(base, s);
    forall j | 0 <= j < k
      ensures |s.list[j].data| > 0
    {
      assert (s.list + s.queue)[j] == s.list[j];
    }
    DataBytes(s.list, k);
    BytesAppend(s.list, s.queue);
    BytesSplit(s.list, k);
    var a, d, r := Bytes(s.list[..k]), s.list[k].data, Bytes(s.list[k + 1..]) + Bytes(s.queue);
    Associate(a, d, Bytes(s.list[k + 1..]), Bytes(s.queue));
    Middle(Drop(s.written, s.una - base), a, d, r);
    assert s.written[s.una - base..] == Drop(s.written, s.una - base);
  }

  lemma LedgerBytes(base: int, s: State)
    requires Ledger(base, s)
    ensures base <= s.una && Bytes(s.list + s.queue) == Drop(s.written, s.una - base) && FinLast(s.list + s.queue)
  {
    hide Bytes, Total;
  }

  lemma Associate(a: seq<byte>, b: seq<byte>, c: seq<byte>, d: seq<byte>)
    ensures (a + (b + c)) + d == a + (b + (c + d))
  {
  }

  lemma Middle(w: seq<byte>, a: seq<byte>, d: seq<byte>, r: seq<byte>)
    requires w == a + (d + r)
    ensures |a| + |d| <= |w| && w[|a|..|a| + |d|] == d
  {
  }

  lemma SendFinPlaced(base: int, s: State, m: nat, now: int)
    requires Core(base, s, m) && s.writeNext < |s.list| && |s.list[s.writeNext].data| == 0
    requires Placed(base, s, m)
    ensures var g := Numbered(s, s.list[s.writeNext]); var t := SendFin(Unbounded, s, g, now);
      Placed(base, t, |t.list|)
  {
    hide Wire, Total, Bytes, SendFin, SentOk, Ledger, Recovering, Congestion;
    var i := s.writeNext;
    var g := Numbered(s, s.list[i]);
    var f := g.(mark := Fin);
    FinIsLast(base, s, m);
    SendFinShape(base, s, m, now);
    var t := SendFin(Unbounded, s, g, now);
    forall k | 0 <= k <= |t.list|
      ensures Off(t.list, k) == Off(s.list, k)
    {
      SetMarkOff(s.list, i, f, k);
    }
    forall p | p in t.out
      ensures Slice(base, t, p) && (p.LogicalLen() > 0 ==> p.End() <= t.una || IsPlace(t, |t.list|, p.End()))
    {
      if p in s.out {
        assert Slice(base, s, p);
        if p.LogicalLen() > 0 && p.End() > s.una {
          var k :| 0 <= k <= m && s.una + Off(s.list, k) == p.End();
          assert t.una + Off(t.list, k) == p.End();
        }
      } else {
        OffNext(s.list, i);
        assert t.una + Off(t.list, i + 1) == p.End();
      }
    }
  }

  lemma SendBytesExact(base: int, s: State, m: nat, g: Segment, now: int, m': nat)
    requires Sendable(base, s, m, g) && Exact(s, m)
    requires m' == if s.writeNext == m then m + 1 else if |g.data| > Piece(Unbounded, s, g) then m + 1 else m
    ensures Exact(SendBytes(Unbounded, s, g, now), m')
  {
    hide Wire, Total, Bytes, Cut, Piece, SendBytes, Ledger, Recovering, Congestion, SentOk;
    var i := s.writeNext;
    var n := Piece(Unbounded, s, g);
    PieceExact(base, s, m, g);
    SendBytesShape(base, s, m, g, now);
    CutShape(s.list, i, g, n);
    CutOffsets(s.list, i, g, n);
    var t := SendBytes(Unbounded, s, g, now);
    var extra := if |g.data| > n then 1 else 0;
    if i < m {
      SentHasMark(s.una + Off(s.list, i), s.list[i]);
    }
    forall k | 0 <= k < m'
      ensures t.list[k].num == t.una + Off(t.list, k)
    {
      if k < i {
        CutPlace(s.list, i, g, n, k);
        assert t.list[k] == t.list[..i][k] == s.list[..i][k];
      } else if i + extra < k {
        CutPlace(s.list, i, g, n, k - extra);
        assert t.list[k] == t.list[i + 1 + extra..][k - i - 1 - extra] == s.list[i + 1..][k - i - 1 - extra];
      }
    }
  }

  lemma CutIsPlace(s: State, m: nat, i: nat, g: Segment, n: nat, t: State, m': nat, e: int)
    requires i < |s.list| && g.data == s.list[i].data && |g.data| > 0 && n > 0 && i <= m
    requires t.list == Cut(Unbounded, s.list, i, g, n) && t.una == s.una && m' <= |t.list|
    requires m' == if i == m then m + 1 else if |g.data| > n then m + 1 else m
    requires IsPlace(s, m, e)
    ensures IsPlace(t, m', e)
  {
    hide Wire, Total, Cut;
    var k :| 0 <= k <= m && s.una + Off(s.list, k) == e;
    CutPlace(s.list, i, g, n, k);
    var extra := if |g.data| > n then 1 else 0;
    assert t.una + Off(t.list, if k <= i then k else k + extra) == e;
  }

  lemma NewIsSlice(base: int, s: State, m: nat, g: Segment, now: int)
    requires Sendable(base, s, m, g) && g.num == s.una + Off(s.list, s.writeNext)
    ensures var n := Piece(Unbounded, s, g);
      Slice(base, SendBytes(Unbounded, s, g, now), Packet(g.num, g.data[..Sent(g, n)], false))
  {
    hide Wire, Total, Bytes, Cut, Piece, SendBytes, Recovering, Congestion, SentOk;
    PieceExact(base, s, m, g);
    SendBytesShape(base, s, m, g, now);
    DataInPlace(base, s, s.writeNext);
    var at, l := g.num - base, Sent(g, Piece(Unbounded, s, g));
    SubSlice(s.written, at, |g.data|, l);
  }

  lemma SubSlice(w: seq<byte>, at: nat, n: nat, l: nat)
    requires l <= n && at + n <= |w|
    ensures w[at..at + l] == w[at..at + n][..l]
  {
  }

  /** A segment sent earlier stays a slice of the stream, and its end a boundary. */
  lemma OldStaysPlaced(base: int, s: State, m: nat, i: nat, g: Segment, n: nat, t: State, m': nat, p: Packet)
    requires i < |s.list| && g.data == s.list[i].data && |g.data| > 0 && n > 0 && i <= m
    requires t.list == Cut(Unbounded, s.list, i, g, n) && t.una == s.una && m' <= |t.list|
    requires m' == if i == m then m + 1 else if |g.data| > n then m + 1 else m
    requires t.written == s.written && s.sndClosed == t.sndClosed && s.nxt <= t.nxt
    requires Slice(base, s, p) && (p.LogicalLen() > 0 ==> p.End() <= s.una || IsPlace(s, m, p.End()))
    ensures Slice(base, t, p) && (p.LogicalLen() > 0 ==> p.End() <= t.una || IsPlace(t, m', p.End()))
  {
    hide Wire, Total, Cut, IsPlace;
    if p.LogicalLen() > 0 && p.End() > s.una {
      CutIsPlace(s, m, i, g, n, t, m', p.End());
    }
  }

  lemma SendBytesPlaced(base: int, s: State, m: nat, g: Segment, now: int, m': nat)
    requires Sendable(base, s, m, g) && Placed(base, s, m)
    requires m' == if s.writeNext == m then m + 1 else if |g.data| > Piece(Unbounded, s, g) then m + 1 else m
    ensures Placed(base, SendBytes(Unbounded, s, g, now), m')
  {
    hide Wire, Total, Bytes, Cut, Piece, SendBytes, Recovering, Congestion, SentOk, Ledger, IsPlace, Slice;
    var i := s.writeNext;
    var n := Piece(Unbounded, s, g);
    if i < m {
      SentHasMark(s.una + Off(s.list, i), s.list[i]);
    }
    SendBytesExact(base, s, m, g, now, m');
    PieceExact(base, s, m, g);
    SendBytesShape(base, s, m, g, now);
    NewIsSlice(base, s, m, g, now);
    CutOffsets(s.list, i, g, n);
    var t := SendBytes(Unbounded, s, g, now);
    NewPlace(t, m', i + 1);
    forall p | p in t.out
      ensures Slice(base, t, p) && (p.LogicalLen() > 0 ==> p.End() <= t.una || IsPlace(t, m', p.End()))
    {
      if p in s.out {
        OldStaysPlaced(base, s, m, i, g, n, t, m', p);
      } else {
        assert p == Packet(g.num, g.data[..Sent(g, n)], false);
      }
    }
  }

  lemma NewPlace(t: State, m: nat, k: nat)
    requires k <= m <= |t.list|
    ensures IsPlace(t, m, t.una + Off(t.list, k))
  {
  }

  // ----- sendData

  function CountData(ps: seq<Packet>): nat {
    if |ps| == 0 then 0 else (if ps[0].fin then 0 else 1) + CountData(ps[1..])
  }

  lemma {:induction false} CountAppend(a: seq<Packet>, p: Packet)
    ensures CountData(a + [p]) == CountData(a) + if p.fin then 0 else 1
    decreases |a|
  {
    if |a| == 0 {
      assert (a + [p])[1..] == [];
    } else {
      assert (a + [p])[1..] == a[1..] + [p];
      CountAppend(a[1..], p);
    }
  }

  /** What may go out between s and t: data at most maxPayloadSize long that ends inside the
    * window, each piece counted in outstanding, and no more than the congestion window allows. */
  ghost predicate WithinLimits(s: State, t: State) {
    && s.out <= t.out
    && t.outstanding == s.outstanding + CountData(t.out[|s.out|..])
    && t.outstanding <= Max(s.outstanding, s.cwnd)
    && forall p :: p in t.out[|s.out|..] && !p.fin ==> 0 < |p.data| <= s.maxPayload && p.num + |p.data| <= s.una + s.wnd
  }

  /** sendData stops only for want of something to send or of room. */
  ghost predicate Exhausted(t: State) {
    t.writeNext >= |t.list| || t.outstanding >= t.cwnd
    || (var g := t.list[t.writeNext]; |g.data| > 0 && t.una + t.wnd <= g.num)
  }

  lemma WithinStep(s: State, t: State, u: State, p: Packet)
    requires WithinLimits(s, t) && SameButList(s, t) && SameButList(t, u) && t.outstanding < t.cwnd
    requires u.out == t.out + [p] && u.outstanding == t.outstanding + (if p.fin then 0 else 1)
    requires !p.fin ==> 0 < |p.data| <= s.maxPayload && p.num + |p.data| <= s.una + s.wnd
    ensures WithinLimits(s, u)
  {
    var new' := t.out[|s.out|..];
    assert u.out[|s.out|..] == new' + [p];
    CountAppend(new', p);
  }

  lemma HaltKeeps(base: int, s: State, m: nat)
    requires Core(base, s, m) && s.writeNext < |s.list|
    requires var g := Numbered(s, s.list[s.writeNext]); |g.data| > 0 && !LessThan(g.num, WindowEnd(Unbounded, s))
    ensures var g := Numbered(s, s.list[s.writeNext]); var t := s.(list := s.list[s.writeNext := g]);
      && Core(base, t, m) && Exhausted(t) && (Placed(base, s, m) ==> Placed(base, t, m))
  {
    hide Wire, Total, Bytes, SentOk, Numbered, FinLast;
    var i := s.writeNext;
    var g := Numbered(s, s.list[i]);
    NumberedSame(s, i, m);
    NumberExact(base, s, m, i);
    var t := s.(list := s.list[i := g]);
    SetMark(s.list, i, g);
    SetFinLast(s.list, s.queue, i, g);
    LedgerOfList(base, s, t);
    forall k | 0 <= k <= |t.list|
      ensures Off(t.list, k) == Off(s.list, k)
    {
      SetMarkOff(s.list, i, g, k);
    }
    forall e | IsPlace(s, m, e)
      ensures IsPlace(t, m, e)
    {
      var k :| 0 <= k <= m && s.una + Off(s.list, k) == e;
      assert t.una + Off(t.list, k) == e;
    }
  }

  lemma SetFinLast(list: seq<Segment>, queue: seq<Segment>, i: nat, g: Segment)
    requires i < |list| && g.data == list[i].data && FinLast(list + queue)
    ensures FinLast(list[i := g] + queue)
  {
    var c := list[i := g] + queue;
    forall k | 0 <= k < |c| - 1
      ensures |c[k].data| > 0
    {
      assert |(list + queue)[k].data| > 0;
    }
  }

  lemma NumberedSame(s: State, i: nat, m: nat)
    requires Labels(s, m) && i < |s.list| && i <= m
    ensures var g := Numbered(s, s.list[i]);
      && g.data == s.list[i].data && (i < m ==> g == s.list[i])
      && (i == m && |g.data| > 0 ==> g.mark.Data?)
  {
    hide Total;
    if i < m {
      assert SentOk(s.una + Off(s.list, i), s.list[i]);
    }
  }

  /** One turn: a segment goes out and the loop continues, or the window ends it. */
  lemma SendOneKeeps(base: int, s: State, m: nat, now: int) returns (m': nat)
    requires Core(base, s, m) && s.writeNext < |s.list| && s.outstanding < s.cwnd
    ensures var r := SendOne(Unbounded, s, now);
      && Core(base, r.s, m') && SameButList(s, r.s) && s.nxt <= r.s.nxt && WithinLimits(s, r.s)
      && (r.Halt? ==> Exhausted(r.s))
      && (Placed(base, s, m) ==> Placed(base, r.s, m'))
  {
    hide Wire, Total, Bytes, SentOk, SendFin, SendBytes, Piece, Ledger, Labels, Placed, Recovering, Congestion;
    var i := s.writeNext;
    var g := Numbered(s, s.list[i]);
    NoNewsWithin(s);
    LabelsCursor(s, m);
    NumberedSame(s, i, m);
    if |g.data| == 0 {
      FinIsLast(base, s, m);
      SendFinShape(base, s, m, now);
      SendFinKeeps(base, s, m, now);
      var t := SendFin(Unbounded, s, g, now);
      WithinStep(s, s, t, Packet(g.num, [], true));
      m' := |t.list|;
      if Placed(base, s, m) {
        SendFinPlaced(base, s, m, now);
      }
    } else if !LessThan(g.num, WindowEnd(Unbounded, s)) {
      MarkNotFin(s, m, i);
      m' := m;
      HaltKeeps(base, s, m);
      NoNewsWithin(s.(list := s.list[i := g]));
    } else {
      MarkNotFin(s, m, i);
      m' := SendBytesKeeps(base, s, m, g, now);
      SendBytesShape(base, s, m, g, now);
      var n := Piece(Unbounded, s, g);
      WithinStep(s, s, SendBytes(Unbounded, s, g, now), Packet(g.num, g.data[..Sent(g, n)], false));
      if Placed(base, s, m) {
        SendBytesPlaced(base, s, m, g, now, m');
      }
    }
  }

  lemma NoNewsWithin(s: State)
    ensures WithinLimits(s, s)
  {
    assert s.out[|s.out|..] == [];
  }

  lemma LabelsCursor(s: State, m: nat)
    requires Labels(s, m)
    ensures s.writeNext <= m <= |s.list|
  {
  }

  lemma MarkNotFin(s: State, m: nat, i: nat)
    requires Labels(s, m) && i < |s.list| && i <= m && |s.list[i].data| > 0
    ensures !Numbered(s, s.list[i]).mark.Fin?
  {
    hide Total;
    if i < m {
      assert SentOk(s.una + Off(s.list, i), s.list[i]);
    }
  }

  lemma WithinTrans(s: State, t: State, u: State)
    requires WithinLimits(s, t) && SameButList(s, t) && WithinLimits(t, u) && t.cwnd == s.cwnd
    requires t.outstanding <= Max(s.outstanding, s.cwnd)
    ensures WithinLimits(s, u)
  {
    var a, b := t.out[|s.out|..], u.out[|t.out|..];
    hide CountData;
    assert u.out[..|t.out|] == t.out && t.out[..|s.out|] == s.out;
    assert u.out == t.out + b && t.out == s.out + a;
    assert u.out[|s.out|..] == a + b;
    CountConcat(a, b);
    forall p: Packet | p in a + b && !p.fin
      ensures 0 < |p.data| <= s.maxPayload && p.num + |p.data| <= s.una + s.wnd
    {
      assert p in a || p in b;
    }
  }

  lemma {:induction false} CountConcat(a: seq<Packet>, b: seq<Packet>)
    ensures CountData(a + b) == CountData(a) + CountData(b)
    decreases |a|
  {
    if |a| == 0 {
      assert a + b == b;
    } else {
      assert (a + b)[1..] == a[1..] + b;
      CountConcat(a[1..], b);
    }
  }

  lemma {:induction false} SendLoopKeeps(base: int, s: State, m: nat, now: int) returns (m': nat)
    requires Core(base, s, m)
    ensures var t := SendLoop(Unbounded, s, now);
      && Core(base, t, m') && SameButList(s, t) && s.nxt <= t.nxt && WithinLimits(s, t) && Exhausted(t)
      && (Placed(base, s, m) ==> Placed(base, t, m'))
    decreases Max(0, s.cwnd - s.outstanding), |s.list| - s.writeNext
  {
    hide Wire, Core, Placed, WithinLimits, SendOne;
    if s.writeNext >= |s.list| || s.outstanding >= s.cwnd {
      m' := m;
      NoNewsWithin(s);
    } else {
      var n := SendOneKeeps(base, s, m, now);
      match SendOne(Unbounded, s, now) {
        case Halt(t) => m' := n;
        case Go(t) =>
          Progress(s, now);
          m' := SendLoopKeeps(base, t, n, now);
          WithinOutstanding(s, t);
          WithinTrans(s, t, SendLoop(Unbounded, t, now));
      }
    }
  }

  lemma WithinOutstanding(s: State, t: State)
    requires WithinLimits(s, t)
    ensures t.outstanding <= Max(s.outstanding, s.cwnd)
  {
  }

  lemma Progress(s: State, now: int)
    requires s.writeNext < |s.list| && s.outstanding < s.cwnd && SendOne(Unbounded, s, now).Go?
    ensures var t := SendOne(Unbounded, s, now).s;
      Max(0, t.cwnd - t.outstanding) < Max(0, s.cwnd - s.outstanding)
      || (t.cwnd - t.outstanding == s.cwnd - s.outstanding && |t.list| - t.writeNext < |s.list| - s.writeNext)
  {
    hide Wire;
  }

  // ----- the routines around it

  ghost predicate TimerRuns(s: State) {
    s.una != s.nxt ==> s.timer.mode.Enabled?
  }

  ghost predicate TimerIdle(s: State) {
    s.timer.mode.Enabled? ==> s.una != s.nxt
  }

  lemma ArmTimerKeeps(base: int, s: State, m: nat, now: int)
    requires Core(base, s, m)
    ensures var t := ArmTimer(s, now);
      && Core(base, t, m) && TimerRuns(t) && (TimerIdle(s) ==> TimerIdle(t)) && t == s.(timer := t.timer)
      && (Placed(base, s, m) ==> Placed(base, t, m))
  {
    hide Wire, Total, Ledger, Labels, Placed;
    LessThanExact(s.una, s.nxt);
    LedgerSame(base, s, ArmTimer(s, now), m);
  }

  lemma RestartIdleKeeps(base: int, s: State, m: nat, now: int)
    requires Core(base, s, m)
    ensures var t := RestartIdle(s, now);
      Core(base, t, m) && t == s.(cwnd := t.cwnd) && (Placed(base, s, m) ==> Placed(base, t, m))
  {
    hide Wire, Total, Ledger, Labels, Placed;
    LedgerSame(base, s, RestartIdle(s, now), m);
  }

  /** sendData keeps the invariant, stays within its limits, stops only for want of room or of
    * data, and leaves the retransmit timer running whenever something is unacknowledged. */
  lemma SendDataKeeps(base: int, s: State, m: nat, now: int) returns (m': nat)
    requires Core(base, s, m)
    ensures var t := SendData(Unbounded, s, now);
      && Core(base, t, m') && TimerRuns(t) && (TimerIdle(s) ==> TimerIdle(t))
      && s.nxt <= t.nxt && s.out <= t.out && Exhausted(t) && WithinLimits(RestartIdle(s, now), t)
      && t == s.(list := t.list, writeNext := t.writeNext, nxt := t.nxt, outstanding := t.outstanding,
                 out := t.out, lastSend := t.lastSend, rttTime := t.rttTime, cwnd := t.cwnd, timer := t.timer)
      && (Placed(base, s, m) ==> Placed(base, t, m'))
  {
    hide Wire, Core, SendLoop, WithinLimits, Placed, RestartIdle, ArmTimer;
    RestartIdleKeeps(base, s, m, now);
    var r := RestartIdle(s, now);
    m' := SendLoopKeeps(base, r, m, now);
    var t := SendLoop(Unbounded, r, now);
    WithinOut(r, t);
    CoreReach(base, s, m);
    ArmTimerKeeps(base, t, m', now);
  }

  lemma CoreReach(base: int, s: State, m: nat)
    requires Core(base, s, m)
    ensures s.una <= s.nxt <= s.una + SPAN
  {
    hide Total, Ledger, Labels;
  }

  lemma WithinOut(s: State, t: State)
    requires WithinLimits(s, t)
    ensures s.out <= t.out
    ensures forall timer :: WithinLimits(s, t.(timer := timer))
  {
  }

  /** The fields the stream's invariants speak of. */
  ghost predicate SameStream(s: State, t: State) {
    t.una == s.una && t.nxt == s.nxt && t.nxtList == s.nxtList && t.list == s.list && t.queue == s.queue
    && t.inQueue == s.inQueue && t.written == s.written && t.sndClosed == s.sndClosed
  }

  lemma LedgerSame(base: int, s: State, t: State, m: nat)
    requires SameStream(s, t)
    ensures Ledger(base, s) ==> Ledger(base, t)
    ensures Labels(s, m) && t.writeNext <= s.writeNext ==> Labels(t, m)
    ensures t.out == s.out && Placed(base, s, m) ==> Placed(base, t, m)
  {
    hide Total, Bytes;
    if Placed(base, s, m) && t.out == s.out {
      PlacedSame(base, s, t, m);
    }
  }

  lemma PlacedSame(base: int, s: State, t: State, m: nat)
    requires SameStream(s, t) && t.out == s.out && Placed(base, s, m)
    ensures Placed(base, t, m)
  {
    hide Total;
    forall p | p in t.out
      ensures Slice(base, t, p) && (p.LogicalLen() > 0 ==> p.End() <= t.una || IsPlace(t, m, p.End()))
    {
      assert Slice(base, s, p);
      if p.LogicalLen() > 0 && p.End() > s.una {
        var k :| 0 <= k <= m && s.una + Off(s.list, k) == p.End();
        assert t.una + Off(t.list, k) == p.End();
      }
    }
  }

  /** A write takes as much as fits, from the front, and nothing when there is no room. */
  lemma WriteAccepts(s: State, data: seq<byte>)
    ensures var t := Write(Unbounded, s, data); var n := |t.written| - |s.written|;
      && n == (if s.sndClosed || s.bufUsed >= s.bufSize then 0 else Min(|data|, s.bufSize - s.bufUsed))
      && t.written == s.written + data[..n]
      && Bytes(t.queue) == Bytes(s.queue) + data[..n]
      && t.bufUsed == s.bufUsed + n && (t.bufUsed <= s.bufSize || t.bufUsed == s.bufUsed)
  {
    hide Total, Bytes;
    var avail := s.bufSize - s.bufUsed;
    if |data| > 0 && !s.sndClosed && avail > 0 {
      var g := Segment(data[..Min(avail, |data|)], 0, Unset);
      BytesAppend(s.queue, [g]);
      BytesOne(g);
    } else {
      assert data[..0] == [] && s.written + [] == s.written && Bytes(s.queue) + [] == Bytes(s.queue);
    }
  }

  lemma WriteKeeps(base: int, s: State, m: nat, data: seq<byte>)
    requires Core(base, s, m)
    ensures var t := Write(Unbounded, s, data);
      && Core(base, t, m) && s.written <= t.written && (s.sndClosed ==> t == s)
      && t.bufUsed - s.bufUsed == |t.written| - |s.written|
      && t.una == s.una && t.nxt == s.nxt && t.out == s.out
      && t.timer == s.timer && t.fr == s.fr && t.sndClosed == s.sndClosed && t.closed == s.closed
      && (Placed(base, s, m) ==> Placed(base, t, m))
  {
    hide Wire, Total, Bytes, SentOk;
    var avail := s.bufSize - s.bufUsed;
    if |data| > 0 && !s.sndClosed && avail > 0 {
      var v := data[..Min(avail, |data|)];
      QueueKeeps(base, s, m, Segment(v, 0, Unset), Write(Unbounded, s, data));
    }
  }

  lemma ShutdownKeeps(base: int, s: State, m: nat)
    requires Core(base, s, m)
    ensures var t := Shutdown(Unbounded, s);
      && Core(base, t, m) && s.written == t.written && t.una == s.una && t.nxt == s.nxt && t.out == s.out
      && t.timer == s.timer && t.fr == s.fr && t.sndClosed && t.closed == s.closed && t.bufUsed == s.bufUsed
      && (Placed(base, s, m) ==> Placed(base, t, m))
  {
    hide Wire, Total, Bytes, SentOk;
    if !s.sndClosed {
      assert s.written + [] == s.written;
      QueueKeeps(base, s, m, Segment([], 0, Unset), Shutdown(Unbounded, s));
    }
  }

  /** Queueing one more segment: data that is appended to the stream, or the FIN that ends it. */
  lemma QueueKeeps(base: int, s: State, m: nat, g: Segment, t: State)
    requires Core(base, s, m) && !s.sndClosed && g.mark.Unset?
    requires t == s.(queue := s.queue + [g], inQueue := s.inQueue + Len(g), written := s.written + g.data,
                     sndClosed := |g.data| == 0, bufUsed := t.bufUsed)
    ensures Core(base, t, m)
    ensures Placed(base, s, m) ==> Placed(base, t, m)
  {
    hide Wire, Total, Bytes, SentOk, Placed, Ledger;
    QueueLedger(base, s, g, t);
    LengthBound(base, s);
    if Placed(base, s, m) {
      PlacedLonger(base, s, t, m);
    }
  }

  lemma QueueLedger(base: int, s: State, g: Segment, t: State)
    requires Ledger(base, s) && !s.sndClosed && g.mark.Unset?
    requires t == s.(queue := s.queue + [g], inQueue := s.inQueue + Len(g), written := s.written + g.data,
                     sndClosed := |g.data| == 0, bufUsed := t.bufUsed)
    ensures Ledger(base, t)
  {
    hide Total, Bytes, FinLast, Drop;
    TotalAppend(s.queue, [g]);
    TotalOne(g);
    var all := s.list + s.queue;
    assert t.list + t.queue == all + [g];
    BytesAppend(all, [g]);
    BytesOne(g);
    LengthBound(base, s);
    NoFinYet(base, s);
    DropAppend(s.written, g.data, s.una - base);
    AppendFinLast(all, g);
  }

  lemma NoFinYet(base: int, s: State)
    requires Ledger(base, s) && !s.sndClosed
    ensures forall k :: 0 <= k < |s.list + s.queue| ==> |(s.list + s.queue)[k].data| > 0
  {
  }

  lemma DropAppend(a: seq<byte>, b: seq<byte>, n: nat)
    requires n <= |a|
    ensures Drop(a + b, n) == Drop(a, n) + b
  {
  }

  lemma AppendFinLast(list: seq<Segment>, g: Segment)
    requires forall k :: 0 <= k < |list| ==> |list[k].data| > 0
    ensures FinLast(list + [g])
  {
  }

  lemma BytesOne(g: Segment)
    ensures Bytes([g]) == g.data
  {
    assert [g][1..] == [] && g.data + [] == g.data;
  }

  lemma LengthBound(base: int, s: State)
    requires Ledger(base, s)
    ensures s.una <= base + |s.written| + if s.sndClosed then 1 else 0
  {
  }

  lemma MoveQueueLabels(s: State, t: State, m: nat)
    requires Labels(s, m) && t.list == s.list + s.queue
    requires t.una == s.una && t.nxt == s.nxt && t.writeNext == s.writeNext
    requires forall g :: g in s.queue ==> g.mark.Unset?
    ensures Labels(t, m)
  {
    hide Wire, Total, SentOk;
    forall k | 0 <= k <= |s.list|
      ensures Off(t.list, k) == Off(s.list, k)
    {
      assert t.list[..k] == s.list[..k];
    }
    forall k | |s.list| <= k < |t.list|
      ensures t.list[k].mark.Unset?
    {
      assert t.list[k] == s.queue[k - |s.list|] && t.list[k] in s.queue;
    }
  }

  lemma MoveQueueKeeps(base: int, s: State, m: nat)
    requires Core(base, s, m)
    ensures var t := MoveQueue(Unbounded, s);
      && Core(base, t, m)
      && t == s.(list := t.list, queue := t.queue, nxtList := t.nxtList, inQueue := t.inQueue)
      && t.list == s.list + s.queue && t.queue == []
      && (Placed(base, s, m) ==> Placed(base, t, m))
  {
    hide Wire, Total, Bytes, Labels, FinLast, Placed;
    assert |s.queue| == 0 ==> s.list + s.queue == s.list;
    if |s.queue| > 0 {
      var t := MoveQueue(Unbounded, s);
      TotalAppend(s.list, s.queue);
      TotalNone();
      assert t.list + t.queue == s.list + s.queue;
      MoveQueueLabels(s, t, m);
      if Placed(base, s, m) {
        PlacedLonger(base, s, t, m);
      }
    }
  }

  /** Appending to the list, the queue and the stream moves nothing. */
  lemma PlacedLonger(base: int, s: State, t: State, m: nat)
    requires Placed(base, s, m) && t.una == s.una && t.nxt == s.nxt && t.out == s.out
    requires s.list <= t.list && s.written <= t.written
    requires s.sndClosed ==> t.sndClosed && t.written == s.written
    ensures Placed(base, t, m)
  {
    hide Total;
    forall k | 0 <= k <= |s.list|
      ensures Off(t.list, k) == Off(s.list, k)
    {
      assert t.list[..k] == s.list[..k];
    }
    forall p | p in t.out
      ensures Slice(base, t, p) && (p.LogicalLen() > 0 ==> p.End() <= t.una || IsPlace(t, m, p.End()))
    {
      assert Slice(base, s, p);
      if p.LogicalLen() > 0 && p.End() > s.una {
        var k :| 0 <= k <= m && s.una + Off(s.list, k) == p.End();
        assert t.una + Off(t.list, k) == p.End();
      }
    }
  }
}
