/** What sendData sends, exactly: the segments from writeNext on, in their order, each as long as
  * the path's payload size, the window and the segment allow.
  */
module SenderExact {
  import opened Packets
  import opened Seqnum
  import opened Sender
  import opened SenderProofs
  import opened SenderEvents
  import opened SenderCycle

  /** The segments of a list, as they go out. */
  function Wired(list: seq<Segment>): (ps: seq<Packet>)
    ensures |ps| == |list|
  {
    if |list| == 0 then []
    else Wired(list[..|list| - 1]) + [var g := list[|list| - 1]; Packet(g.num, g.data, g.mark.Fin?)]
  }

  /** A cut that was there before. */
  ghost predicate Boundary(list: seq<Segment>, x: int) {
    exists j :: 0 <= j <= |list| && Off(list, j) == x
  }

  /** Nothing longer could be sent: the payload size or the window ends it. */
  ghost predicate Full(s: State, g: Segment) {
    |g.data| == s.maxPayload || g.num + |g.data| == s.una + s.wnd
  }

  /** t sent what lay from s.writeNext to t.writeNext, cut only where it must be. */
  ghost predicate SentExactly(s: State, t: State) {
    && s.writeNext <= t.writeNext <= |t.list| && s.writeNext <= |s.list|
    && t.list[..s.writeNext] == s.list[..s.writeNext]
    && t.out == s.out + Wired(t.list[s.writeNext..t.writeNext])
    && forall k :: s.writeNext <= k < t.writeNext ==>
         |t.list[k].data| == 0 || Full(s, t.list[k]) || Boundary(s.list, Off(t.list, k + 1))
  }

  lemma {:induction false} WiredAppend(a: seq<Segment>, b: seq<Segment>)
    ensures Wired(a + b) == Wired(a) + Wired(b)
    decreases |b|
  {
    if |b| == 0 {
      assert a + b == a;
    } else {
      var n := |b| - 1;
      assert (a + b)[..|a + b| - 1] == a + b[..n];
      WiredAppend(a, b[..n]);
    }
  }

  lemma WiredOne(g: Segment)
    ensures Wired([g]) == [Packet(g.num, g.data, g.mark.Fin?)]
  {
    assert [g][..0] == [];
  }

  lemma NothingSent(s: State, t: State)
    requires t.writeNext == s.writeNext <= |s.list| <= |t.list| && t.out == s.out
    requires t.list[..s.writeNext] == s.list[..s.writeNext]
    ensures SentExactly(s, t)
  {
    assert t.list[s.writeNext..t.writeNext] == [];
  }

  /** One turn that goes on has sent one segment, cut only if it must be. */
  lemma SendOneExact(base: int, s: State, m: nat, now: int)
    requires Core(base, s, m) && s.writeNext < |s.list| && SendOne(Unbounded, s, now).Go?
    ensures var t := SendOne(Unbounded, s, now).s; var i := s.writeNext;
      && t.writeNext == i + 1 <= |t.list| && t.list[..i] == s.list[..i]
      && t.out == s.out + [Packet(t.list[i].num, t.list[i].data, t.list[i].mark.Fin?)]
      && (|t.list[i].data| == 0 || Full(s, t.list[i]) || Boundary(s.list, Off(t.list, i + 1)))
      && (forall j :: 0 <= j <= |t.list| && j != i + 1 ==> Boundary(s.list, Off(t.list, j)))
  {
    hide Wire, Total, Bytes, SentOk, SendFin, SendBytes, Piece, Ledger, Recovering, Congestion, LessThan, WindowEnd,
      Cut;
    var i := s.writeNext;
    var g := Numbered(s, s.list[i]);
    LabelsCursor(s, m);
    NumberedSame(s, i, m);
    if |g.data| == 0 {
      FinIsLast(base, s, m);
      SendFinShape(base, s, m, now);
      assert g.data == [];
      assert SendOne(Unbounded, s, now).s == SendFin(Unbounded, s, g, now);
      var t := SendOne(Unbounded, s, now).s;
      forall j | 0 <= j <= |t.list|
        ensures Boundary(s.list, Off(t.list, j))
      {
        SetMarkOff(s.list, i, g.(mark := Fin), j);
      }
      assert t.writeNext == i + 1 <= |t.list| && t.list[..i] == s.list[..i];
      assert t.out == s.out + [Packet(t.list[i].num, t.list[i].data, t.list[i].mark.Fin?)];
    } else {
      MarkNotFin(s, m, i);
      SendBytesShape(base, s, m, g, now);
      var n := Piece(Unbounded, s, g);
      PieceExact(base, s, m, g);
      CutShape(s.list, i, g, n);
      CutOffsets(s.list, i, g, n);
      var c := Cut(Unbounded, s.list, i, g, n);
      var extra := if |g.data| > n then 1 else 0;
      forall j | 0 <= j <= |c| && (j != i + 1 || extra == 0)
        ensures Boundary(s.list, Off(c, j))
      {
        CutPlace(s.list, i, g, n, if j <= i then j else j - extra);
      }
      assert g.data[..|g.data|] == g.data;
    }
  }

  lemma OffPrefix(a: seq<Segment>, b: seq<Segment>, k: nat)
    requires k <= |a| && k <= |b| && a[..k] == b[..k]
    ensures Off(a, k) == Off(b, k)
  {
  }

  /** One turn and what follows it. */
  lemma SentThen(base: int, s: State, m: nat, now: int, t: State, n: nat)
    requires Core(base, s, m) && s.writeNext < |s.list| && SendOne(Unbounded, s, now).Go?
    requires var u := SendOne(Unbounded, s, now).s;
      SentExactly(u, t) && u.una == s.una && u.wnd == s.wnd && u.maxPayload == s.maxPayload
    ensures SentExactly(s, t)
  {
    hide Core, SendOne, Total, Off, Boundary;
    SendOneExact(base, s, m, now);
    var u := SendOne(Unbounded, s, now).s;
    var i := s.writeNext;
    assert t.list[..i + 1] == u.list[..i + 1];
    assert t.list[i] == t.list[..i + 1][i] == u.list[..i + 1][i];
    assert t.list[..i] == u.list[..i + 1][..i];
    assert t.list[i..t.writeNext] == [t.list[i]] + t.list[i + 1..t.writeNext];
    WiredAppend([t.list[i]], t.list[i + 1..t.writeNext]);
    WiredOne(t.list[i]);
    OffPrefix(t.list, u.list, i + 1);
    forall k | i <= k < t.writeNext
      ensures |t.list[k].data| == 0 || Full(s, t.list[k]) || Boundary(s.list, Off(t.list, k + 1))
    {
      if k > i && |t.list[k].data| > 0 && !Full(s, t.list[k]) {
        assert Boundary(u.list, Off(t.list, k + 1));
        OldBoundary(s, u, t, i, k);
      }
    }
  }

  lemma OldBoundary(s: State, u: State, t: State, i: nat, k: nat)
    requires i < k < |t.list| && i < |u.list| && Off(t.list, i + 1) == Off(u.list, i + 1)
    requires Boundary(u.list, Off(t.list, k + 1))
    requires forall j :: 0 <= j <= |u.list| && j != i + 1 ==> Boundary(s.list, Off(u.list, j))
    ensures Boundary(s.list, Off(t.list, k + 1))
  {
    hide Total;
    OffMonotone(t.list, i + 1, k + 1);
    var j :| 0 <= j <= |u.list| && Off(u.list, j) == Off(t.list, k + 1);
    assert j != i + 1;
  }

  lemma {:induction false} SendLoopExact(base: int, s: State, m: nat, now: int)
    requires Core(base, s, m)
    ensures SentExactly(s, SendLoop(Unbounded, s, now))
    decreases Max(0, s.cwnd - s.outstanding), |s.list| - s.writeNext
  {
    hide Wire, Core, Placed, WithinLimits, SendOne, SentExactly;
    CursorIn(base, s, m);
    if s.writeNext >= |s.list| || s.outstanding >= s.cwnd {
      NothingSent(s, s);
    } else {
      var n := SendOneKeeps(base, s, m, now);
      match SendOne(Unbounded, s, now) {
        case Halt(t) => Halts(base, s, m, now);
        case Go(t) =>
          Progress(s, now);
          SendLoopExact(base, t, n, now);
          SentThen(base, s, m, now, SendLoop(Unbounded, t, now), n);
      }
    }
  }

  lemma CursorIn(base: int, s: State, m: nat)
    requires Core(base, s, m)
    ensures s.writeNext <= |s.list|
  {
  }

  lemma Halts(base: int, s: State, m: nat, now: int)
    requires Core(base, s, m) && s.writeNext < |s.list| && SendOne(Unbounded, s, now).Halt?
    ensures SentExactly(s, SendOne(Unbounded, s, now).s)
  {
    hide Wire, Total, Ledger, Labels, LessThan, SentExactly;
    NothingSent(s, SendOne(Unbounded, s, now).s);
  }

  /** sendData sends, from writeNext on, what lies in the list and nothing else, in order; and no
    * segment is cut where neither the payload size nor the window demands it. */
  lemma SendDataExact(base: int, s: State, m: nat, now: int)
    requires Core(base, s, m)
    ensures SentExactly(s, SendData(Unbounded, s, now))
  {
    hide Wire, Core, SendLoop, Placed, Total;
    RestartIdleKeeps(base, s, m, now);
    SendLoopExact(base, RestartIdle(s, now), m, now);
  }

  // ----- a write from rest

  /** Data cut into segments of mss bytes, numbered from num on; the last may be shorter. */
  function Pieces(d: seq<byte>, num: int, mss: nat): (ps: seq<Packet>)
    requires mss > 0
    decreases |d|
  {
    if |d| == 0 then []
    else if |d| <= mss then [Packet(num, d, false)]
    else [Packet(num, d[..mss], false)] + Pieces(d[mss..], num + mss, mss)
  }

  function First(ps: seq<Packet>, n: int): seq<Packet>
    requires n >= 0
  {
    ps[..Min(n, |ps|)]
  }

  /** What of data d at sndNxt lies inside the window. */
  function InWindow(s: State, d: seq<byte>): seq<byte>
    requires s.nxt <= s.una + s.wnd
  {
    d[..Min(|d|, s.una + s.wnd - s.nxt)]
  }

  /** The last segment of the list, still to be sent for the first time. */
  ghost predicate LastNew(s: State, d: seq<byte>) {
    && |s.list| > 0 && s.writeNext == |s.list| - 1 && Numbered(s, s.list[s.writeNext]) == Segment(d, s.nxt, Data)
    && |d| > 0 && s.una <= s.nxt <= s.una + s.wnd && s.wnd < HALF && s.maxPayload >= 1
  }

  lemma SendsPiece(s: State, d: seq<byte>, now: int)
    requires LastNew(s, d) && s.nxt < s.una + s.wnd
    ensures var n := Min(s.maxPayload, s.una + s.wnd - s.nxt); var r := SendOne(Unbounded, s, now); var t := r.s;
      && r.Go? && t.una == s.una && t.wnd == s.wnd && t.maxPayload == s.maxPayload && t.cwnd == s.cwnd
      && t.outstanding == s.outstanding + 1
      && (if |d| <= n then t.writeNext == |t.list| && t.nxt == s.nxt + |d|
            && t.out == s.out + [Packet(s.nxt, d, false)]
          else LastNew(t, d[n..]) && t.nxt == s.nxt + n && t.out == s.out + [Packet(s.nxt, d[..n], false)])
  {
    hide Wire, Numbered;
    var g := Numbered(s, s.list[s.writeNext]);
    LessThanExact(s.nxt, s.una + s.wnd);
    SizeExact(s.nxt, s.una + s.wnd);
    var n := Min(s.maxPayload, s.una + s.wnd - s.nxt);
    LessThanExact(s.nxt, s.nxt + Min(n, |d|));
    assert Piece(Unbounded, s, g) == n;
    if |d| > n {
      NumberedAlready(SendBytes(Unbounded, s, g, now), Segment(d[n..], s.nxt + n, Data));
    }
  }

  lemma NumberedAlready(s: State, g: Segment)
    requires !g.mark.Unset?
    ensures Numbered(s, g) == g
  {
  }

  /** The loop sends the data in pieces, as many as the window and cwnd let out. */
  lemma {:induction false} SendsPieces(s: State, d: seq<byte>, now: int)
    requires LastNew(s, d)
    ensures SendLoop(Unbounded, s, now).out ==
      s.out + First(Pieces(InWindow(s, d), s.nxt, s.maxPayload), Max(0, s.cwnd - s.outstanding))
    decreases |d|
  {
    hide SendOne, Numbered, LastNew;
    LastNewReads(s, d);
    var v := InWindow(s, d);
    var ps := Pieces(v, s.nxt, s.maxPayload);
    if s.outstanding >= s.cwnd {
      assert SendLoop(Unbounded, s, now) == s;
    } else if s.nxt == s.una + s.wnd {
      WindowShut(s, d, now);
    } else {
      SendsPiece(s, d, now);
      var n := Min(s.maxPayload, s.una + s.wnd - s.nxt);
      var t := SendOne(Unbounded, s, now).s;
      assert SendLoop(Unbounded, s, now) == SendLoop(Unbounded, t, now);
      if |d| <= n {
        assert v == d && ps == [Packet(s.nxt, d, false)];
      } else {
        SendsPieces(t, d[n..], now);
        PiecesNext(s, d, n);
        var rest := Pieces(InWindow(t, d[n..]), t.nxt, t.maxPayload);
        assert ps == [Packet(s.nxt, d[..n], false)] + rest;
        FirstNext(Packet(s.nxt, d[..n], false), rest, s.cwnd - s.outstanding);
      }
    }
  }

  lemma LastNewReads(s: State, d: seq<byte>)
    requires LastNew(s, d)
    ensures |d| > 0 && s.nxt <= s.una + s.wnd && s.maxPayload >= 1 && s.writeNext < |s.list|
  {
  }

  lemma FirstNext(p: Packet, rest: seq<Packet>, n: int)
    requires n > 0
    ensures First([p] + rest, n) == [p] + First(rest, n - 1)
  {
  }

  /** What is left of the window's part after the first piece is the window's part of the rest. */
  lemma PiecesNext(s: State, d: seq<byte>, n: nat)
    requires s.nxt < s.una + s.wnd && s.maxPayload >= 1 && |d| > n == Min(s.maxPayload, s.una + s.wnd - s.nxt)
    ensures var v := InWindow(s, d); var w := d[n..][..Min(|d| - n, s.una + s.wnd - s.nxt - n)];
      Pieces(v, s.nxt, s.maxPayload) == [Packet(s.nxt, d[..n], false)] + Pieces(w, s.nxt + n, s.maxPayload)
  {
    var v := InWindow(s, d);
    var w := d[n..][..Min(|d| - n, s.una + s.wnd - s.nxt - n)];
    if |v| <= s.maxPayload {
      assert w == [] && v == d[..n];
    } else {
      assert v[..n] == d[..n] && v[n..] == w;
    }
  }

  lemma WindowShut(s: State, d: seq<byte>, now: int)
    requires LastNew(s, d) && s.nxt == s.una + s.wnd && s.outstanding < s.cwnd
    ensures SendLoop(Unbounded, s, now).out == s.out && InWindow(s, d) == []
  {
    hide Wire, Numbered;
    LessThanExact(s.nxt, s.una + s.wnd);
  }

  /** From rest, a write goes out at once in segments of full size, as far as the peer's window and
    * the congestion window reach; after a pause longer than the timeout the latter is at most ten. */
  lemma WriteGoesOut(s: State, d: seq<byte>, now: int)
    requires Idle(s) && 1 <= |d| <= s.bufSize && 0 <= s.wnd < HALF && s.maxPayload >= 1
    ensures var room := if now - s.lastSend > s.rto then Min(s.cwnd, 10) else s.cwnd;
      Sends(s, d, now).out == s.out + First(Pieces(d[..Min(|d|, s.wnd)], s.una, s.maxPayload), room)
  {
    hide Wire, Write, MoveQueue, SendLoop;
    Writes(s, d);
    SendsPieces(RestartIdle(MoveQueue(Unbounded, Write(Unbounded, s, d)), now), d, now);
  }

  /** The first flight of a connection: ten segments, with a timeout of one second. */
  lemma InitialFlight(iss: int, wnd: int, mss: int, bufSize: int, d: seq<byte>)
    requires 1 <= wnd <= MAX_WND && 1 <= mss <= MAX_SEGMENT && 1 <= |d| <= bufSize && |d| <= wnd
    ensures Sends(Init(iss, wnd, mss, bufSize, Unbounded), d, 0).out == First(Pieces(d, iss, mss), 10)
    ensures Init(iss, wnd, mss, bufSize, Unbounded).rto == 1_000_000_000
  {
    hide Wire, Sends, Pieces;
    InitIdle(iss, wnd, mss, bufSize);
    WriteGoesOut(Init(iss, wnd, mss, bufSize, Unbounded), d, 0);
    assert d[..|d|] == d;
    var ps := First(Pieces(d, iss, mss), 10);
    assert [] + ps == ps;
  }

  /** A connection begins in slow start, however far it grows. */
  lemma InitialGrowth(iss: int, wnd: int, mss: int, bufSize: int, n: nat)
    requires 10 + n < 0x7fff_ffff_ffff_ffff
    ensures RenoUpdate(Init(iss, wnd, mss, bufSize, Unbounded), n).cwnd == 10 + n
  {
  }
}
