/** The reassembler of one datagram: protocol/network/fragmentation/reassembler.go and
  * frag_heap.go. Offsets are uint16, and `last` is inclusive.
  *
  * The routines are functions of the reassembler's state; class FragmentationObject.Reassembler
  * performs them step by step.
  */
module Reassembler {
  import opened Packets
  import Heap

  const TOP: nat := 0xffff

  datatype Hole = Hole(first: nat, last: nat, deleted: bool)

  datatype Fragment = Fragment(offset: nat, data: seq<byte>) {
    function End(): nat {
      offset + |data|
    }
  }

  datatype State = State(holes: seq<Hole>, deleted: nat, heap: seq<Fragment>, size: int, done: bool, created: int)

  function Less(a: Fragment, b: Fragment): bool {
    a.offset < b.offset
  }

  function New(now: int): State {
    State([Hole(0, TOP, false)], 0, [], 0, false, now)
  }

  // ----- updateHoles

  predicate Skips(h: Hole, first: nat, last: nat) {
    h.deleted || first > h.last || last < h.first
  }

  /** What is left of a hole once first..last is filled. */
  function Leftovers(h: Hole, first: nat, last: nat, more: bool): seq<Hole> {
    (if first > h.first then [Hole(h.first, first - 1, false)] else []) +
    (if last < h.last && more then [Hole(last + 1, h.last, false)] else [])
  }

  datatype Update = Update(holes: seq<Hole>, deleted: nat, used: bool)

  /** The loop over the holes that were there when it began: i is the next, n their number. */
  function Fill(u: Update, i: nat, n: nat, first: nat, last: nat, more: bool): (r: Update)
    requires n <= |u.holes|
    decreases n - i
  {
    if i >= n then u
    else
      var h := u.holes[i];
      if Skips(h, first, last) then Fill(u, i + 1, n, first, last, more)
      else
        var holes := u.holes[i := h.(deleted := true)] + Leftovers(h, first, last, more);
        Fill(Update(holes, u.deleted + 1, true), i + 1, n, first, last, more)
  }

  function UpdateHoles(r: State, first: nat, last: nat, more: bool): Update {
    Fill(Update(r.holes, r.deleted, false), 0, |r.holes|, first, last, more)
  }

  // ----- reassemble

  datatype Result = Whole(data: seq<byte>) | FirstMissing | HasHole

  /** The loop that takes the fragments from the heap: `got` is what was put together so far. */
  function Assemble(heap: seq<Fragment>, got: seq<byte>): Result
    decreases |heap|
  {
    if |heap| == 0 then Whole(got)
    else
      var f := heap[0];
      if f.offset > |got| then HasHole
      else Assemble(Heap.Rest(Less, heap), got + Drop(f.data, |got| - f.offset))
  }

  function Reassemble(heap: seq<Fragment>): Result
    requires |heap| > 0
  {
    if heap[0].offset != 0 then FirstMissing else Assemble(Heap.Rest(Less, heap), heap[0].data)
  }

  // ----- process

  datatype Outcome = Incomplete | Complete(data: seq<byte>) | Panic

  /** The new state, what the caller gets, and the bytes that were put aside. */
  function Process(r: State, first: nat, last: nat, more: bool, data: seq<byte>): (State, Outcome, nat) {
    if r.done then (r, Incomplete, 0)
    else
      var u := UpdateHoles(r, first, last, more);
      var consumed := if u.used then |data| else 0;
      var heap := if u.used then Heap.Push(Less, r.heap, Fragment(first, data)) else r.heap;
      var t := r.(holes := u.holes, deleted := u.deleted, heap := heap, size := r.size + consumed);
      if u.deleted < |u.holes| then (t, Incomplete, consumed)
      // heap.Pop of an empty heap panics
      else if |heap| == 0 then (t, Panic, consumed)
      else
        match Reassemble(heap)
        case Whole(whole) => (t.(heap := []), Complete(whole), consumed)
        case _ => (t, Panic, consumed)
  }

  // ----- the fragments of one datagram

  /** A piece of payload p; the last piece, and only it, has no more behind it. */
  predicate IsPiece(p: seq<byte>, first: nat, last: nat, more: bool, data: seq<byte>) {
    && first <= last < |p| <= TOP + 1
    && data == p[first..last + 1]
    && (more <==> last < |p| - 1)
  }

  predicate IsSlice(p: seq<byte>, f: Fragment) {
    |f.data| > 0 && f.End() <= |p| && f.data == p[f.offset..f.End()]
  }

  ghost predicate Covers(heap: seq<Fragment>, x: int) {
    exists f :: f in multiset(heap) && f.offset <= x < f.End()
  }

  predicate In(h: Hole, x: int) {
    !h.deleted && h.first <= x <= h.last
  }

  ghost predicate InHole(holes: seq<Hole>, x: int) {
    exists i :: 0 <= i < |holes| && In(holes[i], x)
  }

  /** One hole holds y and all numbers after it. */
  ghost predicate Reaches(holes: seq<Hole>, y: int) {
    exists i :: 0 <= i < |holes| && In(holes[i], TOP) && In(holes[i], y)
  }

  /** Live holes are intervals of numbers up to TOP, and no number is in two of them. */
  ghost predicate Disjoint(holes: seq<Hole>) {
    && (forall i :: 0 <= i < |holes| && !holes[i].deleted ==> holes[i].first <= holes[i].last <= TOP)
    && (forall i, j, x :: 0 <= i < |holes| && 0 <= j < |holes| && In(holes[i], x) && In(holes[j], x) ==> i == j)
  }

  function Deleted(holes: seq<Hole>): (n: nat)
    ensures n <= |holes|
  {
    if |holes| == 0 then 0 else Deleted(holes[..|holes| - 1]) + if holes[|holes| - 1].deleted then 1 else 0
  }

  /** The end of the datagram is known: its last byte was received. */
  ghost predicate Ended(p: seq<byte>, heap: seq<Fragment>) {
    |p| > 0 && Covers(heap, |p| - 1)
  }

  /** A number is missing if no fragment covers it and it may still belong to the datagram. */
  ghost predicate Missing(p: seq<byte>, heap: seq<Fragment>, x: int) {
    0 <= x <= TOP && !Covers(heap, x) && (Ended(p, heap) ==> x < |p|)
  }

  ghost function Offset(): Fragment -> int {
    (f: Fragment) => f.offset
  }


  ghost predicate Inv(p: seq<byte>, r: State) {
    && 0 < |p| <= TOP + 1
    && Disjoint(r.holes) && r.deleted == Deleted(r.holes)
    && (forall x :: InHole(r.holes, x) <==> Missing(p, r.heap, x))
    && (!Ended(p, r.heap) ==> Reaches(r.holes, |p| - 1))
    && (forall f :: f in multiset(r.heap) ==> IsSlice(p, f))
    && Heap.Ordered(Offset(), r.heap)
    && r.size >= 0 && !r.done
  }

  // ----- updateHoles

  /** A number that the arrival of first..last leaves missing in hole h. */
  predicate Stays(h: Hole, first: nat, last: nat, more: bool, x: int) {
    In(h, x) && (Skips(h, first, last) || x < first || (x > last && more))
  }

  ghost predicate SomeStays(holes: seq<Hole>, first: nat, last: nat, more: bool, x: int) {
    exists i :: 0 <= i < |holes| && Stays(holes[i], first, last, more, x)
  }

  lemma {:induction false} DeletedUpdate(holes: seq<Hole>, i: nat)
    requires i < |holes| && !holes[i].deleted
    ensures Deleted(holes[i := holes[i].(deleted := true)]) == Deleted(holes) + 1
    decreases |holes|
  {
    var n := |holes| - 1;
    var marked := holes[i := holes[i].(deleted := true)];
    if i == n {
      assert marked[..n] == holes[..n];
    } else {
      assert marked[..n] == holes[..n][i := holes[i].(deleted := true)];
      DeletedUpdate(holes[..n], i);
    }
  }

  lemma {:induction false} DeletedAppend(holes: seq<Hole>, more: seq<Hole>)
    requires forall i :: 0 <= i < |more| ==> !more[i].deleted
    ensures Deleted(holes + more) == Deleted(holes)
    decreases |more|
  {
    if |more| == 0 {
      assert holes + more == holes;
    } else {
      var n := |more| - 1;
      assert (holes + more)[..|holes + more| - 1] == holes + more[..n];
      DeletedAppend(holes, more[..n]);
    }
  }

  /** One hole is filled: it goes, and what is left of it comes back at the end. */
  function Filled(holes: seq<Hole>, i: nat, first: nat, last: nat, more: bool): seq<Hole>
    requires i < |holes|
  {
    holes[i := holes[i].(deleted := true)] + Leftovers(holes[i], first, last, more)
  }

  /** Every hole of the result is an old one, or one of at most two leftovers. */
  lemma FilledShape(holes: seq<Hole>, i: nat, first: nat, last: nat, more: bool)
    requires i < |holes| && first <= last && !Skips(holes[i], first, last)
    ensures var r, rest := Filled(holes, i, first, last, more), Leftovers(holes[i], first, last, more);
      && |r| == |holes| + |rest| && |rest| <= 2
      && (forall j :: 0 <= j < |holes| && j != i ==> r[j] == holes[j])
      && r[i] == holes[i].(deleted := true)
      && (forall j :: |holes| <= j < |r| ==> r[j] == rest[j - |holes|] && Skips(r[j], first, last) && !r[j].deleted)
  {
  }

  lemma LeftoverIn(h: Hole, first: nat, last: nat, more: bool, x: int)
    requires first <= last && !Skips(h, first, last)
    ensures var rest := Leftovers(h, first, last, more);
      Stays(h, first, last, more, x) <==> exists k :: 0 <= k < |rest| && In(rest[k], x)
  {
    var rest := Leftovers(h, first, last, more);
    if Stays(h, first, last, more, x) {
      assert In(rest[if x < first then 0 else |rest| - 1], x);
    }
  }

  lemma FilledDisjoint(holes: seq<Hole>, i: nat, first: nat, last: nat, more: bool)
    requires i < |holes| && first <= last <= TOP && Disjoint(holes) && !Skips(holes[i], first, last)
    ensures Disjoint(Filled(holes, i, first, last, more))
  {
    var r := Filled(holes, i, first, last, more);
    FilledShape(holes, i, first, last, more);
    hide Filled;
    forall j, k, x | 0 <= j < |r| && 0 <= k < |r| && In(r[j], x) && In(r[k], x)
      ensures j == k
    {
      assert In(holes[if j < |holes| then j else i], x);
      assert In(holes[if k < |holes| then k else i], x);
    }
  }

  lemma FilledStays(holes: seq<Hole>, i: nat, first: nat, last: nat, more: bool, x: int)
    requires i < |holes| && first <= last && !Skips(holes[i], first, last)
    ensures SomeStays(Filled(holes, i, first, last, more), first, last, more, x) <==>
      SomeStays(holes, first, last, more, x)
  {
    var r, rest := Filled(holes, i, first, last, more), Leftovers(holes[i], first, last, more);
    FilledShape(holes, i, first, last, more);
    LeftoverIn(holes[i], first, last, more, x);
    hide Filled, Leftovers;
    if SomeStays(holes, first, last, more, x) {
      var j :| 0 <= j < |holes| && Stays(holes[j], first, last, more, x);
      if j == i {
        var k :| 0 <= k < |rest| && In(rest[k], x);
        assert Stays(r[|holes| + k], first, last, more, x);
      } else {
        assert Stays(r[j], first, last, more, x);
      }
    }
    if SomeStays(r, first, last, more, x) {
      var j :| 0 <= j < |r| && Stays(r[j], first, last, more, x);
      if j >= |holes| {
        assert In(rest[j - |holes|], x);
        assert Stays(holes[i], first, last, more, x);
      } else {
        assert Stays(holes[j], first, last, more, x);
      }
    }
  }

  lemma FillOne(holes: seq<Hole>, i: nat, first: nat, last: nat, more: bool)
    requires i < |holes| && first <= last <= TOP && Disjoint(holes) && !Skips(holes[i], first, last)
    ensures var r := Filled(holes, i, first, last, more);
      && |r| >= |holes| && Disjoint(r) && Deleted(r) == Deleted(holes) + 1
      && (forall j :: |holes| <= j < |r| ==> Skips(r[j], first, last))
      && (forall j :: 0 <= j < |holes| && j != i ==> r[j] == holes[j])
      && Skips(r[i], first, last)
      && (forall x :: SomeStays(r, first, last, more, x) <==> SomeStays(holes, first, last, more, x))
      && (more ==> forall y :: last < y <= TOP && Reaches(holes, y) ==> Reaches(r, y))
  {
    hide Disjoint, SomeStays, Leftovers, Reaches, Filled;
    FilledShape(holes, i, first, last, more);
    if more {
      forall y | last < y <= TOP && Reaches(holes, y)
        ensures Reaches(Filled(holes, i, first, last, more), y)
      {
        FilledReaches(holes, i, first, last, y);
      }
    }
    FilledDisjoint(holes, i, first, last, more);
    forall x
      ensures SomeStays(Filled(holes, i, first, last, more), first, last, more, x) <==>
        SomeStays(holes, first, last, more, x)
    {
      FilledStays(holes, i, first, last, more, x);
    }
    FilledDeleted(holes, i, first, last, more);
  }

  lemma FilledReaches(holes: seq<Hole>, i: nat, first: nat, last: nat, y: int)
    requires i < |holes| && first <= last < y <= TOP && !Skips(holes[i], first, last) && Reaches(holes, y)
    ensures Reaches(Filled(holes, i, first, last, true), y)
  {
    FilledShape(holes, i, first, last, true);
    var r, rest := Filled(holes, i, first, last, true), Leftovers(holes[i], first, last, true);
    var t :| 0 <= t < |holes| && In(holes[t], TOP) && In(holes[t], y);
    if t == i {
      assert In(rest[|rest| - 1], TOP) && In(rest[|rest| - 1], y);
      assert r[|r| - 1] == rest[|rest| - 1];
    } else {
      assert r[t] == holes[t];
    }
  }

  lemma FilledDeleted(holes: seq<Hole>, i: nat, first: nat, last: nat, more: bool)
    requires i < |holes| && !holes[i].deleted
    ensures Deleted(Filled(holes, i, first, last, more)) == Deleted(holes) + 1
  {
    hide Deleted, Leftovers;
    DeletedUpdate(holes, i);
    FilledLive(holes[i], first, last, more);
    DeletedAppend(holes[i := holes[i].(deleted := true)], Leftovers(holes[i], first, last, more));
  }

  lemma FilledLive(h: Hole, first: nat, last: nat, more: bool)
    ensures forall k :: 0 <= k < |Leftovers(h, first, last, more)| ==> !Leftovers(h, first, last, more)[k].deleted
  {
  }

  lemma {:induction false} FillKeeps(u: Update, i: nat, n: nat, first: nat, last: nat, more: bool)
    requires i <= n <= |u.holes| && first <= last <= TOP && Disjoint(u.holes) && u.deleted == Deleted(u.holes)
    requires forall j :: 0 <= j < |u.holes| && !(i <= j < n) ==> Skips(u.holes[j], first, last)
    ensures var r := Fill(u, i, n, first, last, more);
      && Disjoint(r.holes) && r.deleted == Deleted(r.holes)
      && (forall j :: 0 <= j < |r.holes| ==> Skips(r.holes[j], first, last))
      && (forall x :: SomeStays(r.holes, first, last, more, x) <==> SomeStays(u.holes, first, last, more, x))
      && (r.used <==> u.used || exists j :: i <= j < n && !Skips(u.holes[j], first, last))
      && (more ==> forall y :: last < y <= TOP && Reaches(u.holes, y) ==> Reaches(r.holes, y))
    decreases n - i
  {
    hide Disjoint, SomeStays, Leftovers, Reaches;
    if i < n {
      var h := u.holes[i];
      if Skips(h, first, last) {
        FillKeeps(u, i + 1, n, first, last, more);
      } else {
        FillOne(u.holes, i, first, last, more);
        var holes := Filled(u.holes, i, first, last, more);
        FillKeeps(Update(holes, u.deleted + 1, true), i + 1, n, first, last, more);
      }
    }
  }

  lemma SkippedStay(holes: seq<Hole>, first: nat, last: nat, more: bool, x: int)
    requires forall j :: 0 <= j < |holes| ==> Skips(holes[j], first, last)
    ensures SomeStays(holes, first, last, more, x) <==> InHole(holes, x)
  {
    if InHole(holes, x) {
      var i :| 0 <= i < |holes| && In(holes[i], x);
      assert Stays(holes[i], first, last, more, x);
    }
  }

  /** A piece with more behind it removes exactly its own numbers from the holes. */
  lemma FillsMiddle(holes: seq<Hole>, first: nat, last: nat, x: int)
    requires first <= last
    ensures SomeStays(holes, first, last, true, x) <==> InHole(holes, x) && !(first <= x <= last)
  {
    if InHole(holes, x) && !(first <= x <= last) {
      var i :| 0 <= i < |holes| && In(holes[i], x);
      assert Stays(holes[i], first, last, true, x);
    }
  }

  /** The last piece also removes everything beyond it, when the hole that reaches to the top
    * begins before its end. */
  lemma FillsEnd(holes: seq<Hole>, first: nat, last: nat, x: int)
    requires first <= last <= TOP && Disjoint(holes)
    requires Reaches(holes, last)
    ensures SomeStays(holes, first, last, false, x) <==> InHole(holes, x) && x < first
  {
    var t :| 0 <= t < |holes| && In(holes[t], TOP) && In(holes[t], last);
    if InHole(holes, x) && x < first {
      var i :| 0 <= i < |holes| && In(holes[i], x);
      assert Stays(holes[i], first, last, false, x);
    }
    if SomeStays(holes, first, last, false, x) {
      var i :| 0 <= i < |holes| && Stays(holes[i], first, last, false, x);
      if x > last {
        SameHole(holes, i, t, last, x);
      }
    }
  }

  lemma SameHole(holes: seq<Hole>, i: nat, t: nat, last: nat, x: int)
    requires Disjoint(holes) && i < |holes| && t < |holes| && last <= x
    requires In(holes[i], x) && In(holes[t], TOP) && In(holes[t], last)
    ensures i == t
  {
    assert In(holes[t], x);
  }

  // ----- process

  lemma CoversPush(heap: seq<Fragment>, f: Fragment, x: int)
    ensures Covers(Heap.Push(Less, heap, f), x) <==> Covers(heap, x) || f.offset <= x < f.End()
  {
    hide Heap.Push;
    var pushed := Heap.Push(Less, heap, f);
    assert f in multiset(pushed);
    if Covers(heap, x) {
      var g :| g in multiset(heap) && g.offset <= x < g.End();
      assert g in multiset(pushed);
    }
  }

  lemma PushPieces(p: seq<byte>, heap: seq<Fragment>, f: Fragment)
    requires IsSlice(p, f) && Heap.Ordered(Offset(), heap)
    requires forall g :: g in multiset(heap) ==> IsSlice(p, g)
    ensures var pushed := Heap.Push(Less, heap, f);
      Heap.Ordered(Offset(), pushed) && forall g :: g in multiset(pushed) ==> IsSlice(p, g)
  {
    hide Heap.Push, IsSlice, Heap.Ordered;
    Heap.PushOrdered(Less, Offset(), heap, f);
  }

  /** The heap once a piece has arrived. */
  function NextHeap(r: State, first: nat, last: nat, more: bool, data: seq<byte>): seq<Fragment> {
    if UpdateHoles(r, first, last, more).used then Heap.Push(Less, r.heap, Fragment(first, data)) else r.heap
  }

  /** A piece that touches no hole brings nothing new; another is put on the heap. */
  lemma Coverage(p: seq<byte>, r: State, first: nat, last: nat, more: bool, data: seq<byte>, x: int)
    requires Inv(p, r) && IsPiece(p, first, last, more, data)
    ensures Covers(NextHeap(r, first, last, more, data), x) <==> Covers(r.heap, x) || first <= x <= last
  {
    hide Disjoint, Covers, Deleted, Fill, Heap.Push, Heap.Ordered, SomeStays, IsSlice;
    FillKeeps(Update(r.holes, r.deleted, false), 0, |r.holes|, first, last, more);
    if UpdateHoles(r, first, last, more).used {
      CoversPush(r.heap, Fragment(first, data), x);
    } else if first <= x <= last {
      assert !InHole(r.holes, x);
      assert !Missing(p, r.heap, x);
    }
  }

  lemma EndedAfter(p: seq<byte>, r: State, first: nat, last: nat, more: bool, data: seq<byte>)
    requires Inv(p, r) && IsPiece(p, first, last, more, data)
    ensures Ended(p, NextHeap(r, first, last, more, data)) <==> Ended(p, r.heap) || !more
  {
    hide Inv, NextHeap, Covers;
    Coverage(p, r, first, last, more, data, |p| - 1);
  }

  /** Every number below the hole that a piece may reach into. */
  lemma HolesAfter(p: seq<byte>, r: State, first: nat, last: nat, more: bool, data: seq<byte>, x: int)
    requires Inv(p, r) && IsPiece(p, first, last, more, data)
    ensures InHole(UpdateHoles(r, first, last, more).holes, x) <==> Missing(p, NextHeap(r, first, last, more, data), x)
  {
    hide Disjoint, Covers, Deleted, Fill, Heap.Push, Heap.Ordered, SomeStays, InHole, Reaches, NextHeap;
    var u := UpdateHoles(r, first, last, more);
    FillKeeps(Update(r.holes, r.deleted, false), 0, |r.holes|, first, last, more);
    SkippedStay(u.holes, first, last, more, x);
    Coverage(p, r, first, last, more, data, x);
    EndedAfter(p, r, first, last, more, data);
    if more {
      FillsMiddle(r.holes, first, last, x);
    } else if Ended(p, r.heap) {
      NothingBeyond(r.holes, first, last, x);
    } else {
      FillsEnd(r.holes, first, last, x);
    }
  }

  lemma NothingBeyond(holes: seq<Hole>, first: nat, last: nat, x: int)
    requires first <= last && (InHole(holes, x) ==> x <= last)
    ensures SomeStays(holes, first, last, false, x) <==> InHole(holes, x) && x < first
  {
    if InHole(holes, x) && x < first {
      var i :| 0 <= i < |holes| && In(holes[i], x);
      assert Stays(holes[i], first, last, false, x);
    }
    if SomeStays(holes, first, last, false, x) {
      assert InHole(holes, x);
    }
  }

  lemma {:induction false} AllDeleted(holes: seq<Hole>)
    ensures Deleted(holes) == |holes| <==> forall i :: 0 <= i < |holes| ==> holes[i].deleted
    decreases |holes|
  {
    if |holes| > 0 {
      AllDeleted(holes[..|holes| - 1]);
    }
  }

  ghost predicate AllThere(p: seq<byte>, heap: seq<Fragment>) {
    forall x :: 0 <= x < |p| ==> Covers(heap, x)
  }

  /** No hole is left exactly when all of the datagram is there. */
  lemma {:induction false} NoHoleLeft(p: seq<byte>, holes: seq<Hole>, heap: seq<Fragment>)
    requires 0 < |p| <= TOP + 1 && Disjoint(holes) && (forall f :: f in multiset(heap) ==> IsSlice(p, f))
    requires forall x :: InHole(holes, x) <==> Missing(p, heap, x)
    ensures Deleted(holes) == |holes| <==> AllThere(p, heap)
  {
    hide Deleted;
    AllDeleted(holes);
    if Deleted(holes) == |holes| {
      assert !InHole(holes, TOP) && !Missing(p, heap, TOP);
      assert Ended(p, heap);
      forall x | 0 <= x < |p|
        ensures Covers(heap, x)
      {
        assert !InHole(holes, x) && !Missing(p, heap, x);
      }
    } else {
      var i :| 0 <= i < |holes| && !holes[i].deleted;
      assert In(holes[i], holes[i].first);
      assert Missing(p, heap, holes[i].first);
    }
  }

  // ----- reassemble

  lemma RestPieces(p: seq<byte>, heap: seq<Fragment>)
    requires |heap| > 0 && Heap.Ordered(Offset(), heap) && forall f :: f in multiset(heap) ==> IsSlice(p, f)
    ensures var rest := Heap.Rest(Less, heap);
      && Heap.Ordered(Offset(), rest) && (forall f :: f in multiset(rest) ==> IsSlice(p, f))
      && multiset(heap) == multiset(rest) + multiset{heap[0]} && heap[0] in multiset(heap)
  {
    hide IsSlice, Heap.Rest;
    Heap.PopOrdered(Less, Offset(), heap);
    Heap.PopContents(Less, heap);
  }

  lemma CoversRest(heap: seq<Fragment>, rest: seq<Fragment>, x: int)
    requires |heap| > 0 && multiset(heap) == multiset(rest) + multiset{heap[0]} && Covers(heap, x) && heap[0].End() <= x
    ensures Covers(rest, x)
  {
    var f :| f in multiset(heap) && f.offset <= x < f.End();
    assert f in multiset(rest);
  }

  lemma RootFirst(heap: seq<Fragment>, x: int)
    requires Heap.Ordered(Offset(), heap) && Covers(heap, x)
    ensures |heap| > 0 && heap[0].offset <= x
  {
    var f :| f in multiset(heap) && f.offset <= x < f.End();
    assert f in heap;
    var i :| 0 <= i < |heap| && heap[i] == f;
    Heap.RootIsLeast(Offset(), heap, i);
  }

  lemma Glue(p: seq<byte>, got: seq<byte>, f: Fragment)
    requires |got| <= |p| && got == p[..|got|] && IsSlice(p, f) && f.offset <= |got|
    ensures var g := got + Drop(f.data, |got| - f.offset);
      |got| <= |g| <= |p| && g == p[..|g|] && f.End() <= |g|
  {
    var d := Drop(f.data, |got| - f.offset);
    if |got| < f.End() {
      assert d == p[|got|..f.End()];
    }
  }

  lemma {:induction false} AssembleWhole(p: seq<byte>, heap: seq<Fragment>, got: seq<byte>)
    requires |got| <= |p| && got == p[..|got|] && Heap.Ordered(Offset(), heap)
    requires forall f :: f in multiset(heap) ==> IsSlice(p, f)
    requires forall x :: |got| <= x < |p| ==> Covers(heap, x)
    ensures Assemble(heap, got) == Whole(p)
    decreases |heap|
  {
    hide Covers, Heap.Ordered, Heap.Rest;
    if |heap| == 0 {
      if |got| < |p| {
        RootFirst(heap, |got|);
      }
    } else {
      var f := heap[0];
      RestPieces(p, heap);
      if |got| < |p| {
        RootFirst(heap, |got|);
      }
      Glue(p, got, f);
      var g := got + Drop(f.data, |got| - f.offset);
      forall x | |g| <= x < |p|
        ensures Covers(Heap.Rest(Less, heap), x)
      {
        CoversRest(heap, Heap.Rest(Less, heap), x);
      }
      AssembleWhole(p, Heap.Rest(Less, heap), g);
    }
  }

  /** When everything is there, the fragments are put together without a gap, whatever their
    * order, overlaps and repetitions. */
  lemma ReassembleWhole(p: seq<byte>, heap: seq<Fragment>)
    requires |p| > 0 && Heap.Ordered(Offset(), heap) && AllThere(p, heap)
    requires forall f :: f in multiset(heap) ==> IsSlice(p, f)
    ensures |heap| > 0 && Reassemble(heap) == Whole(p)
  {
    hide Covers, Heap.Ordered, Heap.Rest, Assemble;
    RootFirst(heap, 0);
    RestPieces(p, heap);
    var f := heap[0];
    assert f.data == p[..|f.data|];
    forall x | |f.data| <= x < |p|
      ensures Covers(Heap.Rest(Less, heap), x)
    {
      CoversRest(heap, Heap.Rest(Less, heap), x);
    }
    AssembleWhole(p, Heap.Rest(Less, heap), f.data);
  }

  /** The state once a piece has arrived, before anything is put together. */
  function Next(r: State, first: nat, last: nat, more: bool, data: seq<byte>): State {
    var u := UpdateHoles(r, first, last, more);
    r.(holes := u.holes, deleted := u.deleted, heap := NextHeap(r, first, last, more, data),
       size := r.size + if u.used then |data| else 0)
  }

  lemma NextKeeps(p: seq<byte>, r: State, first: nat, last: nat, more: bool, data: seq<byte>)
    requires Inv(p, r) && IsPiece(p, first, last, more, data)
    ensures var t := Next(r, first, last, more, data);
      && Inv(p, t) && (forall x :: Covers(t.heap, x) <==> Covers(r.heap, x) || first <= x <= last)
  {
    hide Covers, Deleted, Fill, Heap.Push, Heap.Ordered, SomeStays, InHole, Reaches, Disjoint, IsSlice, Missing, Ended;
    var u, heap := UpdateHoles(r, first, last, more), NextHeap(r, first, last, more, data);
    FillKeeps(Update(r.holes, r.deleted, false), 0, |r.holes|, first, last, more);
    PieceIsSlice(p, first, last, more, data);
    PushPieces(p, r.heap, Fragment(first, data));
    EndedAfter(p, r, first, last, more, data);
    forall x
      ensures InHole(u.holes, x) <==> Missing(p, heap, x)
      ensures Covers(heap, x) <==> Covers(r.heap, x) || first <= x <= last
    {
      HolesAfter(p, r, first, last, more, data, x);
      Coverage(p, r, first, last, more, data, x);
    }
  }

  lemma DoneTest(p: seq<byte>, r: State)
    requires Inv(p, r)
    ensures r.deleted < |r.holes| <==> !AllThere(p, r.heap)
  {
    hide Covers, Heap.Ordered, InHole, Reaches, Disjoint, IsSlice, Missing, Ended, AllThere;
    NoHoleLeft(p, r.holes, r.heap);
  }

  lemma WholeOfAll(p: seq<byte>, r: State)
    requires Inv(p, r) && AllThere(p, r.heap)
    ensures |r.heap| > 0 && Reassemble(r.heap) == Whole(p)
  {
    hide Covers, Heap.Ordered, InHole, Reaches, Disjoint, IsSlice, Missing, Ended, AllThere, Reassemble;
    ReassembleWhole(p, r.heap);
  }

  lemma ProcessIs(r: State, first: nat, last: nat, more: bool, data: seq<byte>)
    requires !r.done
    ensures var t := Next(r, first, last, more, data);
      Process(r, first, last, more, data) ==
        if t.deleted < |t.holes| then (t, Incomplete, t.size - r.size)
        else if |t.heap| == 0 then (t, Panic, t.size - r.size)
        else match Reassemble(t.heap)
          case Whole(whole) => (t.(heap := []), Complete(whole), t.size - r.size)
          case _ => (t, Panic, t.size - r.size)
  {
    hide Fill, Heap.Push, Reassemble;
  }

  lemma InvReads(p: seq<byte>, r: State)
    requires Inv(p, r)
    ensures !r.done && |p| > 0
  {
  }

  /** A piece of the datagram arrives: the datagram comes out, whole, exactly when this piece
    * completes it; otherwise the holes are again exactly what is missing. It never panics. */
  lemma ProcessKeeps(p: seq<byte>, r: State, first: nat, last: nat, more: bool, data: seq<byte>)
    requires Inv(p, r) && IsPiece(p, first, last, more, data)
    ensures var (t, o, consumed) := Process(r, first, last, more, data);
      && o == (if forall x :: 0 <= x < |p| ==> Covers(r.heap, x) || first <= x <= last then Complete(p) else Incomplete)
      && t.size == r.size + consumed && t.created == r.created && !t.done
      && (o.Incomplete? ==> Inv(p, t) && forall x :: Covers(t.heap, x) <==> Covers(r.heap, x) || first <= x <= last)
  {
    hide Covers, Inv, IsPiece, Process, Reassemble, NextHeap, UpdateHoles;
    InvReads(p, r);
    ProcessIs(r, first, last, more, data);
    NextKeeps(p, r, first, last, more, data);
    var t := Next(r, first, last, more, data);
    InvReads(p, t);
    DoneTest(p, t);
    if AllThere(p, t.heap) {
      WholeOfAll(p, t);
    }
  }

  lemma PieceIsSlice(p: seq<byte>, first: nat, last: nat, more: bool, data: seq<byte>)
    requires IsPiece(p, first, last, more, data)
    ensures IsSlice(p, Fragment(first, data)) && |data| == last - first + 1
  {
  }

  lemma NewKeeps(p: seq<byte>, now: int)
    requires 0 < |p| <= TOP + 1
    ensures Inv(p, New(now)) && forall x :: !Covers(New(now).heap, x)
  {
    var r := New(now);
    assert In(r.holes[0], TOP) && In(r.holes[0], |p| - 1);
    forall x
      ensures InHole(r.holes, x) <==> Missing(p, r.heap, x)
    {
      assert InHole(r.holes, x) <==> In(r.holes[0], x);
    }
    assert r.holes[..0] == [];
  }

  // ----- any order, any overlaps, any repetitions

  datatype Piece = Piece(first: nat, last: nat, more: bool, data: seq<byte>)

  predicate AllPieces(p: seq<byte>, ps: seq<Piece>) {
    forall q :: q in ps ==> IsPiece(p, q.first, q.last, q.more, q.data)
  }

  /** What comes out first when the pieces arrive in this order. */
  function Feed(r: State, ps: seq<Piece>): Outcome
    decreases |ps|
  {
    if |ps| == 0 then Incomplete
    else
      var (t, o, _) := Process(r, ps[0].first, ps[0].last, ps[0].more, ps[0].data);
      if o.Incomplete? then Feed(t, ps[1..]) else o
  }

  ghost predicate Brought(ps: seq<Piece>, x: int) {
    exists q :: q in ps && q.first <= x <= q.last
  }

  lemma BroughtNext(ps: seq<Piece>, x: int)
    requires |ps| > 0
    ensures Brought(ps, x) <==> ps[0].first <= x <= ps[0].last || Brought(ps[1..], x)
  {
    if Brought(ps, x) {
      var q :| q in ps && q.first <= x <= q.last;
      assert q == ps[0] || q in ps[1..];
    }
  }

  lemma {:induction false} FeedFrom(p: seq<byte>, r: State, ps: seq<Piece>)
    requires Inv(p, r) && AllPieces(p, ps) && !AllThere(p, r.heap)
    ensures Feed(r, ps) ==
      if forall x :: 0 <= x < |p| ==> Covers(r.heap, x) || Brought(ps, x) then Complete(p) else Incomplete
    decreases |ps|
  {
    hide Inv, Covers, Brought, Process, IsPiece;
    if |ps| > 0 {
      var q := ps[0];
      ProcessKeeps(p, r, q.first, q.last, q.more, q.data);
      var (t, o, _) := Process(r, q.first, q.last, q.more, q.data);
      forall x
        ensures Brought(ps, x) <==> q.first <= x <= q.last || Brought(ps[1..], x)
      {
        BroughtNext(ps, x);
      }
      if o.Incomplete? {
        FeedFrom(p, t, ps[1..]);
      }
    } else {
      assert forall x :: !Brought(ps, x) by { NothingBrought(); }
    }
  }

  lemma NothingBrought()
    ensures forall x :: !Brought([], x)
  {
  }

  /** Section 3 of RFC 815: from pieces of one datagram, in any order, overlapping and repeated,
    * the datagram comes out exactly when they cover it, and it comes out unchanged. */
  lemma AnyOrder(p: seq<byte>, now: int, ps: seq<Piece>)
    requires 0 < |p| <= TOP + 1 && AllPieces(p, ps)
    ensures Feed(New(now), ps) == if forall x :: 0 <= x < |p| ==> Brought(ps, x) then Complete(p) else Incomplete
  {
    hide Inv, Covers, Brought, IsPiece, Feed;
    NewKeeps(p, now);
    assert !Covers(New(now).heap, 0);
    FeedFrom(p, New(now), ps);
  }

  // ----- any fragments at all

  /** Below every fragment's end every number is covered. */
  ghost predicate NoGap(heap: seq<Fragment>) {
    forall f, x :: f in multiset(heap) && 0 <= x < f.End() ==> Covers(heap, x)
  }

  /** The same, from a number on. */
  ghost predicate NoGapFrom(heap: seq<Fragment>, n: nat) {
    forall f, x :: f in multiset(heap) && n <= x < f.End() ==> Covers(heap, x)
  }

  lemma RestOrdered(heap: seq<Fragment>)
    requires |heap| > 0 && Heap.Ordered(Offset(), heap)
    ensures var rest := Heap.Rest(Less, heap);
      && Heap.Ordered(Offset(), rest)
      && multiset(heap) == multiset(rest) + multiset{heap[0]} && heap[0] in multiset(heap)
  {
    hide Heap.Rest;
    Heap.PopOrdered(Less, Offset(), heap);
    Heap.PopContents(Less, heap);
  }

  /** Taking the root, which starts at or before n, leaves the same gaps from where it ends. */
  lemma NoGapNext(heap: seq<Fragment>, rest: seq<Fragment>, n: nat, m: nat)
    requires |heap| > 0 && multiset(heap) == multiset(rest) + multiset{heap[0]}
    requires heap[0].offset <= n && m == if n < heap[0].End() then heap[0].End() else n
    ensures NoGapFrom(heap, n) <==> NoGapFrom(rest, m)
  {
    var r := heap[0];
    if NoGapFrom(heap, n) {
      forall f, x | f in multiset(rest) && m <= x < f.End()
        ensures Covers(rest, x)
      {
        assert f in multiset(heap);
        CoversRest(heap, rest, x);
      }
    }
    if NoGapFrom(rest, m) {
      forall f, x | f in multiset(heap) && n <= x < f.End()
        ensures Covers(heap, x)
      {
        if x < m {
          assert r in multiset(heap) && r.offset <= x < r.End();
        } else {
          assert f != r && f in multiset(rest);
          assert Covers(rest, x);
          var g :| g in multiset(rest) && g.offset <= x < g.End();
          assert g in multiset(heap);
        }
      }
    }
  }

  /** Putting together succeeds exactly when there is no gap from what was put together on. */
  lemma {:induction false} AssembleExact(heap: seq<Fragment>, got: seq<byte>)
    requires Heap.Ordered(Offset(), heap)
    ensures Assemble(heap, got).Whole? <==> NoGapFrom(heap, |got|)
    decreases |heap|
  {
    hide Heap.Ordered, Heap.Rest, NoGapFrom;
    if |heap| == 0 {
      NothingToCover(|got|);
    } else if heap[0].offset > |got| {
      GapBefore(heap, |got|);
    } else {
      var f := heap[0];
      RestOrdered(heap);
      var g := got + Drop(f.data, |got| - f.offset);
      NoGapNext(heap, Heap.Rest(Less, heap), |got|, |g|);
      AssembleExact(Heap.Rest(Less, heap), g);
    }
  }

  lemma NothingToCover(n: nat)
    ensures NoGapFrom([], n)
  {
  }

  lemma GapBefore(heap: seq<Fragment>, n: nat)
    requires |heap| > 0 && Heap.Ordered(Offset(), heap) && heap[0].offset > n
    ensures !NoGapFrom(heap, n)
  {
    hide Heap.Ordered;
    assert heap[0] in multiset(heap);
    if Covers(heap, n) {
      RootFirst(heap, n);
    }
  }

  /** reassemble succeeds exactly when the fragments leave no gap, whatever they are. */
  lemma ReassembleExact(heap: seq<Fragment>)
    requires |heap| > 0 && Heap.Ordered(Offset(), heap)
    ensures Reassemble(heap).Whole? <==> NoGap(heap)
  {
    hide Heap.Ordered, Heap.Rest, Assemble, NoGapFrom, NoGap;
    FromZero(heap);
    if heap[0].offset != 0 {
      GapBefore(heap, 0);
    } else {
      RestOrdered(heap);
      NoGapNext(heap, Heap.Rest(Less, heap), 0, |heap[0].data|);
      AssembleExact(Heap.Rest(Less, heap), heap[0].data);
    }
  }

  lemma FromZero(heap: seq<Fragment>)
    ensures NoGap(heap) <==> NoGapFrom(heap, 0)
  {
  }

  ghost predicate AllGone(holes: seq<Hole>) {
    forall i :: 0 <= i < |holes| ==> holes[i].deleted
  }

  /** What holds of any reassembler that has not finished. */
  ghost predicate Live(r: State) {
    !r.done && r.deleted == Deleted(r.holes) && Heap.Ordered(Offset(), r.heap) && !AllGone(r.holes)
  }

  /** The count follows the marks, whatever arrives. */
  lemma {:induction false} FillCounts(u: Update, i: nat, n: nat, first: nat, last: nat, more: bool)
    requires i <= n <= |u.holes| && u.deleted == Deleted(u.holes)
    ensures var r := Fill(u, i, n, first, last, more);
      && r.deleted == Deleted(r.holes) && (u.used ==> r.used) && (!r.used ==> r == u)
    decreases n - i
  {
    hide Deleted, Leftovers;
    if i < n {
      if Skips(u.holes[i], first, last) {
        FillCounts(u, i + 1, n, first, last, more);
      } else {
        FilledDeleted(u.holes, i, first, last, more);
        FillCounts(Update(Filled(u.holes, i, first, last, more), u.deleted + 1, true), i + 1, n, first, last, more);
      }
    }
  }

  /** The state once a fragment has arrived, whatever it is. */
  lemma NextLive(r: State, first: nat, last: nat, more: bool, data: seq<byte>)
    requires Live(r)
    ensures var t := Next(r, first, last, more, data);
      && !t.done && Heap.Ordered(Offset(), t.heap) && t.deleted == Deleted(t.holes)
      && (t.deleted < |t.holes| <==> !AllGone(t.holes)) && (AllGone(t.holes) ==> |t.heap| > 0)
  {
    hide Fill, Deleted, Heap.Push, Heap.Ordered;
    FillCounts(Update(r.holes, r.deleted, false), 0, |r.holes|, first, last, more);
    Heap.PushOrdered(Less, Offset(), r.heap, Fragment(first, data));
    AllDeleted(Next(r, first, last, more, data).holes);
  }

  /** The panic that the code believes impossible, exactly: some fragment fills the last hole, and
    * the fragments that were kept leave a gap. */
  lemma PanicsExactly(r: State, first: nat, last: nat, more: bool, data: seq<byte>)
    requires Live(r)
    ensures var (t, o, consumed) := Process(r, first, last, more, data); var n := Next(r, first, last, more, data);
      && (o.Panic? <==> AllGone(n.holes) && !NoGap(n.heap))
      && (o.Complete? <==> AllGone(n.holes) && NoGap(n.heap))
      && (o.Incomplete? ==> t == n && Live(t))
  {
    hide Process, Next, Reassemble, NoGap, AllGone, Deleted, Heap.Ordered;
    NextLive(r, first, last, more, data);
    ProcessIs(r, first, last, more, data);
    var n := Next(r, first, last, more, data);
    if |n.heap| > 0 {
      ReassembleExact(n.heap);
    }
  }

  /** The holes and the heap after fragments, up to the first that leaves no hole. */
  function Settle(r: State, ps: seq<Piece>): State
    decreases |ps|
  {
    if |ps| == 0 || r.deleted >= |r.holes| then r
    else Settle(Next(r, ps[0].first, ps[0].last, ps[0].more, ps[0].data), ps[1..])
  }

  /** Over any fragments, from anyone: the reassembler goes on while a hole is left, and once none
    * is, it hands something over or panics as its fragments leave no gap or one. */
  lemma {:induction false} FeedExactly(r: State, ps: seq<Piece>)
    requires Live(r)
    ensures var t := Settle(r, ps); var o := Feed(r, ps);
      && (o.Incomplete? <==> !AllGone(t.holes))
      && (o.Panic? <==> AllGone(t.holes) && !NoGap(t.heap))
      && (o.Complete? <==> AllGone(t.holes) && NoGap(t.heap))
    decreases |ps|
  {
    hide Process, Next, NoGap, AllGone, Deleted, Heap.Ordered;
    GoneCount(r.holes);
    if |ps| > 0 {
      var q := ps[0];
      NextLive(r, q.first, q.last, q.more, q.data);
      PanicsExactly(r, q.first, q.last, q.more, q.data);
      var n := Next(r, q.first, q.last, q.more, q.data);
      if AllGone(n.holes) {
        Settled(n, ps[1..]);
      } else {
        FeedExactly(n, ps[1..]);
      }
    }
  }

  lemma GoneCount(holes: seq<Hole>)
    ensures Deleted(holes) >= |holes| <==> AllGone(holes)
  {
    hide Deleted;
    AllDeleted(holes);
  }

  lemma Settled(r: State, ps: seq<Piece>)
    requires r.deleted >= |r.holes|
    ensures Settle(r, ps) == r
  {
  }

  /** From an empty reassembler. */
  lemma AnyFragments(now: int, ps: seq<Piece>)
    ensures var t := Settle(New(now), ps); var o := Feed(New(now), ps);
      && (o.Incomplete? <==> !AllGone(t.holes))
      && (o.Panic? <==> AllGone(t.holes) && !NoGap(t.heap))
      && (o.Complete? <==> AllGone(t.holes) && NoGap(t.heap))
  {
    hide Settle, Feed, NoGap;
    assert New(now).holes[..0] == [];
    assert !New(now).holes[0].deleted;
    FeedExactly(New(now), ps);
  }

  /** The last live hole is filled completely. */
  lemma FillsLast(u: Update, first: nat, last: nat)
    requires |u.holes| == 2 && u.holes[0].deleted && !Skips(u.holes[1], first, last) && first == u.holes[1].first
    ensures Fill(u, 0, 2, first, last, false) ==
      Update([u.holes[0], u.holes[1].(deleted := true)], u.deleted + 1, true)
  {
    var h := u.holes[1];
    assert Leftovers(h, first, last, false) == [];
    var marked := u.holes[1 := h.(deleted := true)] + [];
    assert marked == [u.holes[0], h.(deleted := true)];
    assert Fill(u, 1, 2, first, last, false) == Fill(Update(marked, u.deleted + 1, true), 2, 2, first, last, false);
  }

  lemma FillsFirst(a: byte)
    ensures Process(New(0), 8, 8, false, [a]) ==
      (State([Hole(0, TOP, true), Hole(0, 7, false)], 1, [Fragment(8, [a])], 1, false, 0), Incomplete, 1)
  {
    var u := Update(New(0).holes, 0, false);
    var h := Hole(0, TOP, false);
    assert Leftovers(h, 8, 8, false) == [Hole(0, 7, false)];
    var holes := u.holes[0 := h.(deleted := true)] + [Hole(0, 7, false)];
    assert holes == [Hole(0, TOP, true), Hole(0, 7, false)];
    assert Fill(u, 0, 1, 8, 8, false) == Fill(Update(holes, 1, true), 1, 1, 8, 8, false);
    assert Heap.Push(Less, [], Fragment(8, [a])) == [Fragment(8, [a])];
  }

  lemma PushesFront(x: Fragment, y: Fragment)
    requires y.offset < x.offset
    ensures Heap.Push(Less, [x], y) == [y, x]
  {
    assert [x] + [y] == [x, y] && Heap.Swap([x, y], 0, 1) == [y, x];
    assert Heap.Up(Less, [x, y], 1) == Heap.Up(Less, [y, x], 0);
  }

  lemma HasGap(x: Fragment, y: Fragment)
    requires y.offset == 0 && |y.data| < x.offset
    ensures Reassemble([y, x]) == HasHole
  {
    assert Heap.Swap([y, x], 0, 1) == [x, y];
    assert Heap.Rest(Less, [y, x]) == [x, y][..1] == [x];
  }

  /** The pieces must agree on the datagram: two that both claim to be the last may leave no hole
    * and yet no whole, and then the code's claim that this cannot happen fails. */
  lemma TwoEnds(a: byte, b: byte)
    ensures Feed(New(0), [Piece(8, 8, false, [a]), Piece(0, 0, false, [b])]) == Panic
  {
    hide Fill, Reassemble, Heap.Push;
    FillsFirst(a);
    var t := Process(New(0), 8, 8, false, [a]).0;
    FillsLast(Update(t.holes, t.deleted, false), 0, 0);
    PushesFront(Fragment(8, [a]), Fragment(0, [b]));
    HasGap(Fragment(8, [a]), Fragment(0, [b]));
    assert Process(t, 0, 0, false, [b]).1 == Panic;
    assert [Piece(8, 8, false, [a]), Piece(0, 0, false, [b])][1..] == [Piece(0, 0, false, [b])];
  }
}
