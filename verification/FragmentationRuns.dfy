/** What comes out of the fragmentation module over a run, in terms of what arrived and when: the
  * datagram whose pieces arrived within the timeout, exactly when they cover it.
  */
module FragmentationRuns {
  import opened Packets
  import opened Fragmentation
  import R = Reassembler

  // ----- what arrived

  function Front(es: seq<Event>): seq<Event>
    requires |es| > 0
  {
    es[..|es| - 1]
  }

  function Back(es: seq<Event>): Event
    requires |es| > 0
  {
    es[|es| - 1]
  }

  /** A fragment of id brought number x. */
  ghost predicate Brought(es: seq<Event>, id: int, x: int) {
    exists i :: 0 <= i < |es| && es[i].id == id && es[i].first <= x <= es[i].last
  }

  ghost predicate AllBrought(es: seq<Event>, id: int, whole: seq<byte>) {
    forall x :: 0 <= x < |whole| ==> Brought(es, id, x)
  }

  datatype Option = None | At(time: int)

  /** When the first fragment of id arrived. */
  function Started(es: seq<Event>, id: int): Option
    decreases |es|
  {
    if |es| == 0 then None
    else if Started(Front(es), id).At? then Started(Front(es), id)
    else if Back(es).id == id then At(Back(es).now) else None
  }

  /** Every fragment of id arrived within the timeout of the first. */
  predicate InTime(es: seq<Event>, id: int, timeout: int)
    decreases |es|
  {
    |es| == 0
    || (InTime(Front(es), id, timeout) && (Back(es).id == id ==> Back(es).now - Started(es, id).time <= timeout))
  }

  /** All the fragments of id are pieces of one datagram; those of others may be anything. */
  predicate PiecesOf(es: seq<Event>, id: int, whole: seq<byte>) {
    forall i :: 0 <= i < |es| && es[i].id == id ==> R.IsPiece(whole, es[i].first, es[i].last, es[i].more, es[i].data)
  }

  /** At every arrival there was room for it. */
  predicate Roomy(f: State, es: seq<Event>)
    decreases |es|
  {
    |es| == 0 || (Roomy(f, Front(es)) && Run(f, Front(es)).size + |Back(es).data| <= f.high)
  }

  lemma {:induction false} RunAppend(f: State, es: seq<Event>, e: Event)
    ensures Run(f, es + [e]) == Apply(Run(f, es), e).0
    decreases |es|
  {
    hide Apply;
    if |es| == 0 {
      assert es + [e] == [e] && [e][1..] == [];
    } else {
      assert (es + [e])[1..] == es[1..] + [e];
      RunAppend(Apply(f, es[0]).0, es[1..], e);
    }
  }

  lemma Split(es: seq<Event>)
    requires |es| > 0
    ensures es == Front(es) + [Back(es)]
  {
  }

  // ----- one arrival, with room for it

  lemma {:induction false} NotTooMuch(r: R.State, first: nat, last: nat, more: bool, data: seq<byte>)
    ensures R.Process(r, first, last, more, data).2 <= |data|
  {
    hide R.UpdateHoles, R.Reassemble;
  }

  /** With room nothing is evicted: the arrival touches its own reassembler alone. */
  lemma OthersStay(f: State, e: Event)
    requires Budget(f) && f.size + |e.data| <= f.high
    ensures var (g, o) := Apply(f, e); var r := if Kept(f, e) then f.reassemblers[e.id] else R.New(e.now);
      var (t, p, _) := R.Process(r, e.first, e.last, e.more, e.data);
      && Budget(g) && (g.high, g.low, g.timeout) == (f.high, f.low, f.timeout) && o == p
      && (if o.Complete? then e.id !in g.reassemblers else e.id in g.reassemblers && g.reassemblers[e.id] == t)
      && (forall x :: x != e.id ==> (x in g.reassemblers <==> x in f.reassemblers))
      && (forall x :: x != e.id && x in f.reassemblers ==> g.reassemblers[x] == f.reassemblers[x])
  {
    hide R.Process, Budget, Evict, Take, Lookup;
    LookupKeeps(f, e.id, e.now);
    LookupSize(f, e.id, e.now);
    var l := Lookup(f, e.id, e.now);
    TakeKeeps(l, e.id, e.first, e.last, e.more, e.data);
    TakeSize(l, e);
  }

  /** The reassembler of the fragment's id is there and started no longer than the timeout ago. */
  predicate Kept(f: State, e: Event) {
    e.id in f.reassemblers && e.now - f.reassemblers[e.id].created <= f.timeout
  }

  lemma LookupSize(f: State, id: int, now: int)
    requires Budget(f)
    ensures Lookup(f, id, now).size <= f.size
  {
    hide Budget;
    if id in f.reassemblers && !Live(f, id, now) {
      ReleaseKeeps(f, id);
      SizesKnown(f, id);
    }
  }

  lemma SizesKnown(f: State, id: int)
    requires Budget(f) && id in f.reassemblers
    ensures f.reassemblers[id].size >= 0
  {
  }

  lemma TakeSize(f: State, e: Event)
    requires Budget(f) && e.id in f.reassemblers
    ensures Take(f, e.id, e.first, e.last, e.more, e.data).0.size <= f.size + |e.data|
  {
    hide R.Process, Budget;
    NotTooMuch(f.reassemblers[e.id], e.first, e.last, e.more, e.data);
    var (r, o, consumed) := R.Process(f.reassemblers[e.id], e.first, e.last, e.more, e.data);
    var g := f.(reassemblers := f.reassemblers[e.id := r], size := f.size + consumed);
    if o.Complete? {
      TakeKeeps(f, e.id, e.first, e.last, e.more, e.data);
      CompleteSize(f, e);
    }
  }

  lemma CompleteSize(f: State, e: Event)
    requires Budget(f) && e.id in f.reassemblers
    requires R.Process(f.reassemblers[e.id], e.first, e.last, e.more, e.data).1.Complete?
    ensures Take(f, e.id, e.first, e.last, e.more, e.data).0.size <= f.size
  {
    hide R.Process, NoDup;
    ProcessCounts(f.reassemblers[e.id], e.first, e.last, e.more, e.data);
    var (r, o, consumed) := R.Process(f.reassemblers[e.id], e.first, e.last, e.more, e.data);
    TotalUpdate(f.reassemblers, f.list, e.id, r);
    var g := f.(reassemblers := f.reassemblers[e.id := r], size := f.size + consumed);
    ReleaseKeeps(g, e.id);
  }

  // ----- runs

  lemma BroughtNext(es: seq<Event>, id: int, x: int)
    requires |es| > 0
    ensures Brought(es, id, x) <==>
      Brought(Front(es), id, x) || (Back(es).id == id && Back(es).first <= x <= Back(es).last)
  {
    var n := |es| - 1;
    if Brought(Front(es), id, x) {
      var i :| 0 <= i < n && Front(es)[i].id == id && Front(es)[i].first <= x <= Front(es)[i].last;
      assert es[i] == Front(es)[i];
    }
    if Brought(es, id, x) {
      var i :| 0 <= i < |es| && es[i].id == id && es[i].first <= x <= es[i].last;
      assert i < n ==> es[i] == Front(es)[i];
    }
  }

  /** The state of id's reassembler tells what was brought since it started. */
  ghost predicate Tracks(g: State, es: seq<Event>, id: int, whole: seq<byte>) {
    match Started(es, id)
    case None => id !in g.reassemblers && forall x :: !Brought(es, id, x)
    case At(time) =>
      && id in g.reassemblers && g.reassemblers[id].created == time && R.Inv(whole, g.reassemblers[id])
      && forall x :: R.Covers(g.reassemblers[id].heap, x) <==> Brought(es, id, x)
  }

  /** A fragment of another id leaves id alone. */
  lemma OtherTracks(g: State, es: seq<Event>, e: Event, id: int, whole: seq<byte>)
    requires Budget(g) && Tracks(g, es, id, whole) && e.id != id && g.size + |e.data| <= g.high
    ensures Tracks(Apply(g, e).0, es + [e], id, whole)
  {
    hide R.Process, Budget, Apply, R.Inv, R.Covers, Brought;
    OthersStay(g, e);
    var all := es + [e];
    assert Front(all) == es && Back(all) == e;
    forall x
      ensures Brought(all, id, x) <==> Brought(es, id, x)
    {
      BroughtNext(all, id, x);
    }
  }

  /** One of id, in time: the answer is the datagram exactly if that completes it. */
  lemma OwnTracks(g: State, es: seq<Event>, e: Event, id: int, whole: seq<byte>)
    requires Budget(g) && Tracks(g, es, id, whole) && e.id == id && g.size + |e.data| <= g.high
    requires R.IsPiece(whole, e.first, e.last, e.more, e.data)
    requires Started(es, id).At? ==> e.now - Started(es, id).time <= g.timeout
    ensures var (h, o) := Apply(g, e); var all := es + [e];
      if AllBrought(all, id, whole) then o == R.Complete(whole) && id !in h.reassemblers
      else o == R.Incomplete && Tracks(h, all, id, whole)
  {
    hide R.Process, Budget, Apply, R.Inv, R.Covers, Brought, R.IsPiece;
    OthersStay(g, e);
    R.NewKeeps(whole, e.now) by { PieceLength(whole, e); }
    var r := if Kept(g, e) then g.reassemblers[id] else R.New(e.now);
    NewCreated(e.now);
    R.ProcessKeeps(whole, r, e.first, e.last, e.more, e.data);
    var all := es + [e];
    assert Front(all) == es && Back(all) == e;
    forall x
      ensures Brought(all, id, x) <==> R.Covers(r.heap, x) || e.first <= x <= e.last
    {
      BroughtNext(all, id, x);
    }
  }

  lemma PieceLength(whole: seq<byte>, e: Event)
    requires R.IsPiece(whole, e.first, e.last, e.more, e.data)
    ensures 0 < |whole| <= R.TOP + 1
  {
  }

  lemma NewCreated(now: int)
    ensures R.New(now).created == now
  {
  }

  lemma {:induction false} RunTracks(f: State, es: seq<Event>, id: int, whole: seq<byte>)
    requires Budget(f) && id !in f.reassemblers && Roomy(f, es) && InTime(es, id, f.timeout)
    requires PiecesOf(es, id, whole) && 0 < |whole| && !AllBrought(es, id, whole)
    ensures var g := Run(f, es);
      Budget(g) && (g.high, g.low, g.timeout) == (f.high, f.low, f.timeout) && Tracks(g, es, id, whole)
    decreases |es|
  {
    hide Budget, Apply, Run, Tracks, Brought, R.IsPiece;
    if |es| == 0 {
      NothingYet(f, id, whole);
    } else {
      var front, e := Front(es), Back(es);
      Split(es);
      PiecesFront(es, id, whole);
      RunTracks(f, front, id, whole) by { FewerBrought(es, id, whole); }
      RunAppend(f, front, e);
      var g := Run(f, front);
      ApplyBudget(g, e);
      if e.id == id {
        StartedFront(es, id, f.timeout);
        OwnTracks(g, front, e, id, whole);
      } else {
        OtherTracks(g, front, e, id, whole);
      }
    }
  }

  lemma NothingYet(f: State, id: int, whole: seq<byte>)
    requires id !in f.reassemblers
    ensures Run(f, []) == f && Tracks(f, [], id, whole)
  {
  }

  lemma PiecesFront(es: seq<Event>, id: int, whole: seq<byte>)
    requires |es| > 0 && PiecesOf(es, id, whole)
    ensures PiecesOf(Front(es), id, whole)
    ensures var e := Back(es); e.id == id ==> R.IsPiece(whole, e.first, e.last, e.more, e.data)
  {
    hide R.IsPiece;
  }

  lemma FewerBrought(es: seq<Event>, id: int, whole: seq<byte>)
    requires |es| > 0 && !AllBrought(es, id, whole)
    ensures !AllBrought(Front(es), id, whole)
  {
    hide Brought;
    var x :| 0 <= x < |whole| && !Brought(es, id, x);
    BroughtNext(es, id, x);
  }

  lemma StartedFront(es: seq<Event>, id: int, timeout: int)
    requires |es| > 0 && InTime(es, id, timeout) && Back(es).id == id
    ensures Started(Front(es), id).At? ==> Back(es).now - Started(Front(es), id).time <= timeout
  {
  }

  lemma ApplyBudget(g: State, e: Event)
    requires Budget(g) && g.size + |e.data| <= g.high
    ensures var h := Apply(g, e).0; Budget(h) && (h.high, h.low, h.timeout) == (g.high, g.low, g.timeout)
  {
    hide R.Process, Budget, Apply;
    OthersStay(g, e);
  }

  /** Many datagrams interleaved, those of other ids whatever they like: as long as there is room,
    * the fragments of one id that arrive within the timeout of its first give back its datagram,
    * unchanged, with the fragment that completes it, and nothing before. */
  lemma ComesOut(f: State, es: seq<Event>, e: Event, id: int, whole: seq<byte>)
    requires Budget(f) && id !in f.reassemblers && e.id == id && 0 < |whole|
    requires var all := es + [e]; Roomy(f, all) && InTime(all, id, f.timeout) && PiecesOf(all, id, whole)
    requires !AllBrought(es, id, whole)
    ensures Apply(Run(f, es), e).1 ==
      if AllBrought(es + [e], id, whole) then R.Complete(whole) else R.Incomplete
  {
    hide Budget, Apply, Run, Tracks, Brought, R.IsPiece;
    var all := es + [e];
    assert Front(all) == es && Back(all) == e;
    PiecesFront(all, id, whole);
    RunTracks(f, es, id, whole);
    StartedFront(all, id, f.timeout);
    OwnTracks(Run(f, es), es, e, id, whole);
  }

  /** A fragment that comes more than the timeout after the first of its id finds what was gathered
    * thrown away: it is answered as the first of a new datagram. */
  lemma StartsAnew(f: State, es: seq<Event>, e: Event, id: int, whole: seq<byte>, next: seq<byte>)
    requires Budget(f) && id !in f.reassemblers && e.id == id && 0 < |whole|
    requires Roomy(f, es + [e]) && InTime(es, id, f.timeout) && PiecesOf(es, id, whole) && !AllBrought(es, id, whole)
    requires R.IsPiece(next, e.first, e.last, e.more, e.data)
    requires Started(es, id).At? && e.now - Started(es, id).time > f.timeout
    ensures var (h, o) := Apply(Run(f, es), e);
      if AllBrought([e], id, next) then o == R.Complete(next) && id !in h.reassemblers
      else o == R.Incomplete && Tracks(h, [e], id, next)
  {
    hide Budget, Apply, Run, R.Process, Brought, R.IsPiece, R.Inv, R.Covers;
    var all := es + [e];
    assert Front(all) == es && Back(all) == e;
    RunTracks(f, es, id, whole);
    var g := Run(f, es);
    OthersStay(g, e);
    assert !Kept(g, e);
    StartedOne(e);
    R.NewKeeps(next, e.now) by { PieceLength(next, e); }
    NewCreated(e.now);
    R.ProcessKeeps(next, R.New(e.now), e.first, e.last, e.more, e.data);
    assert Front([e]) == [] && Back([e]) == e;
    forall x
      ensures Brought([e], id, x) <==> R.Covers(R.New(e.now).heap, x) || e.first <= x <= e.last
    {
      BroughtNext([e], id, x);
      NotBrought(id, x);
    }
  }

  lemma StartedOne(e: Event)
    ensures Started([e], e.id) == At(e.now)
  {
    assert Front([e]) == [];
  }

  lemma NotBrought(id: int, x: int)
    ensures !Brought([], id, x)
  {
  }

  // ----- age

  /** The limits as they are kept: the low one is neither above the high one nor negative. */
  lemma NewLimits(high: int, low: int, timeout: int)
    ensures var f := New(high, low, timeout);
      && f.high == high && f.timeout == timeout && f.size == 0 && f.reassemblers == map[]
      && f.low == (if low < 0 || high < 0 then 0 else if low < high then low else high)
      && Budget(f) && forall now :: ByAge(f, now)
  {
  }

  /** The list runs from the youngest to the oldest, so that eviction takes the oldest. */
  ghost predicate ByAge(f: State, now: int) {
    && (forall i :: 0 <= i < |f.list| ==> f.list[i] in f.reassemblers && f.reassemblers[f.list[i]].created <= now)
    && (forall i, j :: 0 <= i < j < |f.list| && f.list[i] in f.reassemblers && f.list[j] in f.reassemblers ==>
          f.reassemblers[f.list[j]].created <= f.reassemblers[f.list[i]].created)
  }

  /** The list without some of its members, each as old as it was. */
  ghost predicate Thinned(f: State, g: State) {
    && Sub(g.list, f.list)
    && forall i :: 0 <= i < |g.list| ==>
         g.list[i] in g.reassemblers && g.list[i] in f.reassemblers
         && g.reassemblers[g.list[i]].created == f.reassemblers[g.list[i]].created
  }

  /** a is what is left of b when some are taken out. */
  ghost predicate Sub(a: seq<int>, b: seq<int>)
    decreases |b|
  {
    if |b| == 0 then a == [] else Sub(a, b[1..]) || (|a| > 0 && a[0] == b[0] && Sub(a[1..], b[1..]))
  }

  lemma {:induction false} SubRefl(a: seq<int>)
    ensures Sub(a, a)
    decreases |a|
  {
    if |a| > 0 {
      SubRefl(a[1..]);
    }
  }

  lemma {:induction false} SubRemove(a: seq<int>, id: int)
    ensures Sub(Remove(a, id), a)
    decreases |a|
  {
    if |a| > 0 {
      if a[0] == id {
        SubRefl(a[1..]);
      } else {
        SubRemove(a[1..], id);
      }
    }
  }

  lemma {:induction false} SubPrefix(a: seq<int>, b: seq<int>)
    requires a <= b
    ensures Sub(a, b)
    decreases |b|
  {
    if |b| > 0 {
      if |a| > 0 {
        SubPrefix(a[1..], b[1..]);
      } else {
        SubPrefix([], b[1..]);
      }
    }
  }

  /** Where the members of what is left were. */
  lemma {:induction false} SubAt(a: seq<int>, b: seq<int>, i: nat, j: nat) returns (k: nat, l: nat)
    requires Sub(a, b) && i <= j < |a|
    ensures k <= l < |b| && b[k] == a[i] && b[l] == a[j] && (i < j ==> k < l)
    decreases |b|
  {
    if Sub(a, b[1..]) {
      k, l := SubAt(a, b[1..], i, j);
      k, l := k + 1, l + 1;
    } else if i > 0 {
      k, l := SubAt(a[1..], b[1..], i - 1, j - 1);
      k, l := k + 1, l + 1;
    } else if j > 0 {
      k, l := SubAt(a[1..], b[1..], j - 1, j - 1);
      k, l := 0, l + 1;
    } else {
      k, l := 0, 0;
    }
  }

  lemma ThinnedByAge(f: State, g: State, now: int)
    requires ByAge(f, now) && Thinned(f, g)
    ensures ByAge(g, now)
  {
    hide Sub;
    forall i, j | 0 <= i <= j < |g.list|
      ensures g.reassemblers[g.list[i]].created <= now
      ensures i < j ==> g.reassemblers[g.list[j]].created <= g.reassemblers[g.list[i]].created
    {
      var k, l := SubAt(g.list, f.list, i, j);
    }
  }

  lemma LookupByAge(f: State, id: int, now: int)
    requires Budget(f) && ByAge(f, now)
    ensures ByAge(Lookup(f, id, now), now)
  {
    hide Budget, Sub, Total;
    LookupKeeps(f, id, now);
    if !(id in f.reassemblers && now - f.reassemblers[id].created <= f.timeout) {
      var e := Release(f, id);
      ReleaseThins(f, id);
      ThinnedByAge(f, e, now);
      Unlisted(f, id);
      var g := Lookup(f, id, now);
      assert g.list == [id] + e.list && g.reassemblers == e.reassemblers[id := R.New(now)];
      NewCreated(now);
    }
  }

  lemma Unlisted(f: State, id: int)
    requires Budget(f)
    ensures forall i :: 0 <= i < |Release(f, id).list| ==> Release(f, id).list[i] != id
  {
    if id in f.reassemblers {
      ReleaseKeeps(f, id);
    }
  }

  lemma ReleaseThins(f: State, id: int)
    requires Budget(f)
    ensures Thinned(f, Release(f, id))
  {
    hide Sub, Total;
    SubRefl(f.list);
    if id in f.reassemblers {
      ReleaseKeeps(f, id);
      SubRemove(f.list, id);
    }
  }

  /** A reassembler keeps its age while it is fed. */
  lemma ProcessAge(r: R.State, first: nat, last: nat, more: bool, data: seq<byte>)
    ensures R.Process(r, first, last, more, data).0.created == r.created
  {
    hide R.UpdateHoles, R.Reassemble;
  }

  lemma TakeByAge(f: State, e: Event, now: int)
    requires Budget(f) && ByAge(f, now) && e.id in f.reassemblers
    ensures ByAge(Take(f, e.id, e.first, e.last, e.more, e.data).0, now)
  {
    hide Budget, Sub, R.Process, Take, Total;
    TakeKeeps(f, e.id, e.first, e.last, e.more, e.data);
    ProcessAge(f.reassemblers[e.id], e.first, e.last, e.more, e.data);
    var (g, o) := Take(f, e.id, e.first, e.last, e.more, e.data);
    SubRefl(f.list);
    SubRemove(f.list, e.id);
    Members(g);
    assert Thinned(f, g);
    ThinnedByAge(f, g, now);
  }

  lemma Members(f: State)
    requires Budget(f)
    ensures forall i :: 0 <= i < |f.list| ==> f.list[i] in f.reassemblers
  {
  }

  lemma EvictByAge(f: State, now: int)
    requires Budget(f) && ByAge(f, now)
    ensures ByAge(Evict(f, f.list), now)
  {
    hide Budget, Sub, Evict, Total;
    EvictKeeps(f);
    var g := Evict(f, f.list);
    SubPrefix(g.list, f.list);
    Members(g);
    EvictSame(f);
    ThinnedByAge(f, g, now);
  }

  lemma EvictSame(f: State)
    requires Budget(f)
    ensures var g := Evict(f, f.list);
      forall i :: 0 <= i < |g.list| ==>
        && g.list[i] in g.reassemblers && g.list[i] in f.reassemblers
        && g.reassemblers[g.list[i]] == f.reassemblers[g.list[i]]
  {
    hide Budget, Evict, Total;
    var g := Evict(f, f.list);
    EvictKeeps(f);
    Members(g);
    forall i | 0 <= i < |g.list|
      ensures g.list[i] in g.reassemblers && g.list[i] in f.reassemblers
      ensures g.reassemblers[g.list[i]] == f.reassemblers[g.list[i]]
    {
      EvictAt(f, g.list[i]);
    }
  }

  lemma EvictAt(f: State, id: int)
    requires Budget(f) && id in Evict(f, f.list).reassemblers
    ensures id in f.reassemblers && Evict(f, f.list).reassemblers[id] == f.reassemblers[id]
  {
    hide Budget, Evict, Total;
    EvictKeeps(f);
  }

  lemma ApplyByAge(f: State, e: Event)
    requires Budget(f) && ByAge(f, e.now)
    ensures Budget(Apply(f, e).0) && ByAge(Apply(f, e).0, e.now)
  {
    hide Budget, ByAge, Lookup, Take, Evict;
    LookupKeeps(f, e.id, e.now);
    LookupByAge(f, e.id, e.now);
    var l := Lookup(f, e.id, e.now);
    TakeKeeps(l, e.id, e.first, e.last, e.more, e.data);
    TakeByAge(l, e, e.now);
    var g := Take(l, e.id, e.first, e.last, e.more, e.data).0;
    EvictKeeps(g);
    EvictByAge(g, e.now);
  }

  predicate Monotone(now: int, es: seq<Event>)
    decreases |es|
  {
    |es| == 0 || (now <= es[0].now && Monotone(es[0].now, es[1..]))
  }

  /** Over every run whose clock does not go back, whatever arrives. */
  lemma {:induction false} RunByAge(f: State, now: int, es: seq<Event>) returns (last: int)
    requires Budget(f) && ByAge(f, now) && Monotone(now, es)
    ensures now <= last && Budget(Run(f, es)) && ByAge(Run(f, es), last)
    decreases |es|
  {
    hide Budget, ByAge, Apply;
    last := now;
    if |es| > 0 {
      Later(f, now, es[0].now);
      ApplyByAge(f, es[0]);
      last := RunByAge(Apply(f, es[0]).0, es[0].now, es[1..]);
    }
  }

  lemma Later(f: State, now: int, then': int)
    requires ByAge(f, now) && now <= then'
    ensures ByAge(f, then')
  {
  }
}
