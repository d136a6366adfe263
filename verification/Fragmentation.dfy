/** All datagrams being reassembled, and the memory they may take:
  * protocol/network/fragmentation/fragmentation.go. A call of Process is one step.
  */
module Fragmentation {
  import opened Packets
  import R = Reassembler

  datatype State = State(
    reassemblers: map<int, R.State>,
    list: seq<int>,             // rList, from front to back: the newest first
    size: int,
    high: int, low: int, timeout: int)

  function Remove(list: seq<int>, id: int): seq<int> {
    if |list| == 0 then [] else if list[0] == id then list[1..] else [list[0]] + Remove(list[1..], id)
  }

  function New(high: int, low: int, timeout: int): State {
    var l := if low >= high then high else low;
    State(map[], [], 0, high, if l < 0 then 0 else l, timeout)
  }

  /** release; a reassembler that was released before is left alone. */
  function Release(f: State, id: int): State {
    if id !in f.reassemblers || f.reassemblers[id].done then f
    else
      var size := f.size - f.reassemblers[id].size;
      f.(reassemblers := f.reassemblers - {id}, list := Remove(f.list, id), size := if size < 0 then 0 else size)
  }

  predicate Live(f: State, id: int, now: int) {
    id in f.reassemblers && now - f.reassemblers[id].created <= f.timeout
  }

  /** The reassembler of id is there, and is not too old. */
  function Lookup(f: State, id: int, now: int): (g: State)
    ensures id in g.reassemblers
  {
    if Live(f, id, now) then f
    else
      var e := Release(f, id);
      e.(reassemblers := e.reassemblers[id := R.New(now)], list := [id] + e.list)
  }

  /** process, and the counts after it. */
  function Take(f: State, id: int, first: nat, last: nat, more: bool, data: seq<byte>): (State, R.Outcome)
    requires id in f.reassemblers
  {
    var (r, o, consumed) := R.Process(f.reassemblers[id], first, last, more, data);
    var g := f.(reassemblers := f.reassemblers[id := r], size := f.size + consumed);
    (if o.Complete? then Release(g, id) else g, o)
  }

  /** The loop that throws out the oldest; `from` is the list up to the next to go. */
  function Evict(f: State, from: seq<int>): State
    decreases |from|
  {
    if f.size <= f.low || |from| == 0 then f
    else Evict(Release(f, from[|from| - 1]), from[..|from| - 1])
  }

  function Process(f: State, id: int, first: nat, last: nat, more: bool, data: seq<byte>, now: int)
    : (State, R.Outcome)
  {
    var (g, o) := Take(Lookup(f, id, now), id, first, last, more, data);
    (if !o.Panic? && g.size > g.high then Evict(g, g.list) else g, o)
  }

  // ----- the invariant

  predicate NoDup(list: seq<int>) {
    forall i, j :: 0 <= i < j < |list| ==> list[i] != list[j]
  }

  /** The list and the map have the same members. */
  predicate Listed(reassemblers: map<int, R.State>, list: seq<int>) {
    NoDup(list) && Known(reassemblers, list) && forall id :: id in reassemblers ==> id in list
  }

  predicate Known(reassemblers: map<int, R.State>, list: seq<int>) {
    forall i :: 0 <= i < |list| ==> list[i] in reassemblers
  }

  function Total(reassemblers: map<int, R.State>, list: seq<int>): int
    requires Known(reassemblers, list)
  {
    if |list| == 0 then 0 else reassemblers[list[0]].size + Total(reassemblers, list[1..])
  }

  predicate Budget(f: State) {
    && Listed(f.reassemblers, f.list)
    && f.size == Total(f.reassemblers, f.list)
    && (forall id :: id in f.reassemblers ==> f.reassemblers[id].size >= 0 && !f.reassemblers[id].done)
    && 0 <= f.low && (f.high >= 0 ==> f.low <= f.high)
  }

  lemma Tail(list: seq<int>)
    requires NoDup(list) && |list| > 0
    ensures NoDup(list[1..]) && list[0] !in list[1..] && list == [list[0]] + list[1..]
  {
    forall i | 0 <= i < |list| - 1
      ensures list[1..][i] != list[0]
    {
      assert list[1..][i] == list[i + 1];
    }
  }

  lemma {:induction false} RemoveIn(list: seq<int>, id: int)
    requires NoDup(list)
    ensures NoDup(Remove(list, id)) && forall x :: x in Remove(list, id) <==> x in list && x != id
    decreases |list|
  {
    if |list| > 0 {
      Tail(list);
      if list[0] != id {
        RemoveIn(list[1..], id);
      }
    }
  }

  lemma {:induction false} TotalSame(a: map<int, R.State>, b: map<int, R.State>, list: seq<int>)
    requires Known(a, list) && Known(b, list) && forall i :: 0 <= i < |list| ==> a[list[i]].size == b[list[i]].size
    ensures Total(a, list) == Total(b, list)
    decreases |list|
  {
    if |list| > 0 {
      TotalSame(a, b, list[1..]);
    }
  }

  lemma {:induction false} TotalRemove(m: map<int, R.State>, list: seq<int>, id: int)
    requires NoDup(list) && id in list && Known(m, list)
    ensures id in m && Known(m, Remove(list, id)) && Total(m, Remove(list, id)) == Total(m, list) - m[id].size
    decreases |list|
  {
    RemoveIn(list, id);
    Tail(list);
    if list[0] != id {
      TotalRemove(m, list[1..], id);
      assert Remove(list, id)[1..] == Remove(list[1..], id);
    }
  }

  lemma {:induction false} TotalUpdate(m: map<int, R.State>, list: seq<int>, id: int, r: R.State)
    requires NoDup(list) && Known(m, list)
    ensures Total(m[id := r], list) == Total(m, list) + if id in list then r.size - m[id].size else 0
    decreases |list|
  {
    if |list| > 0 {
      Tail(list);
      TotalUpdate(m, list[1..], id, r);
    }
  }

  lemma {:induction false} TotalAtLeast(m: map<int, R.State>, list: seq<int>, id: int)
    requires Known(m, list) && forall i :: 0 <= i < |list| ==> m[list[i]].size >= 0
    ensures Total(m, list) >= 0 && (id in list ==> id in m && Total(m, list) >= m[id].size)
    decreases |list|
  {
    if |list| > 0 {
      assert list == [list[0]] + list[1..];
      TotalAtLeast(m, list[1..], id);
    }
  }

  /** A reassembler goes, and with it exactly its memory: the counter never goes below zero. */
  lemma ReleaseKeeps(f: State, id: int)
    requires Budget(f) && id in f.reassemblers
    ensures var g := Release(f, id);
      && Budget(g) && g == f.(reassemblers := f.reassemblers - {id}, list := Remove(f.list, id),
        size := f.size - f.reassemblers[id].size)
  {
    hide NoDup;
    RemoveIn(f.list, id);
    TotalRemove(f.reassemblers, f.list, id);
    TotalAtLeast(f.reassemblers, f.list, id);
    var m := f.reassemblers - {id};
    TotalSame(f.reassemblers, m, Remove(f.list, id));
  }

  lemma LookupKeeps(f: State, id: int, now: int)
    requires Budget(f)
    ensures var g := Lookup(f, id, now);
      && Budget(g) && !g.reassemblers[id].done && (g.high, g.low, g.timeout) == (f.high, f.low, f.timeout)
      && g.reassemblers[id] == (if Live(f, id, now) then f.reassemblers[id] else R.New(now))
      && (forall x :: x != id ==> (x in g.reassemblers <==> x in f.reassemblers))
      && (forall x :: x != id && x in f.reassemblers ==> g.reassemblers[x] == f.reassemblers[x])
      && g.list == (if Live(f, id, now) then f.list else [id] + Release(f, id).list)
  {
    if !Live(f, id, now) {
      var e := Release(f, id);
      if id in f.reassemblers {
        ReleaseKeeps(f, id);
      }
      assert id !in e.list;
      TotalUpdate(e.reassemblers, e.list, id, R.New(now));
      assert ([id] + e.list)[1..] == e.list;
    }
  }

  /** The numbers of Process that the budget depends on. */
  lemma ProcessCounts(r: R.State, first: nat, last: nat, more: bool, data: seq<byte>)
    requires !r.done && r.size >= 0
    ensures var (t, o, consumed) := R.Process(r, first, last, more, data); t.size == r.size + consumed && !t.done
  {
    hide R.UpdateHoles, R.Reassemble;
  }

  lemma TakeKeeps(f: State, id: int, first: nat, last: nat, more: bool, data: seq<byte>)
    requires Budget(f) && id in f.reassemblers
    ensures var (g, o) := Take(f, id, first, last, more, data);
      && Budget(g) && (g.high, g.low, g.timeout) == (f.high, f.low, f.timeout)
      && o == R.Process(f.reassemblers[id], first, last, more, data).1
      && g.list == (if o.Complete? then Remove(f.list, id) else f.list)
      && (!o.Complete? ==>
            g.reassemblers == f.reassemblers[id := R.Process(f.reassemblers[id], first, last, more, data).0])
      && (o.Complete? ==> g.reassemblers == f.reassemblers - {id})
  {
    hide R.Process, NoDup;
    ProcessCounts(f.reassemblers[id], first, last, more, data);
    var (r, o, consumed) := R.Process(f.reassemblers[id], first, last, more, data);
    TotalUpdate(f.reassemblers, f.list, id, r);
    var g := f.(reassemblers := f.reassemblers[id := r], size := f.size + consumed);
    if o.Complete? {
      ReleaseKeeps(g, id);
      assert f.reassemblers[id := r] - {id} == f.reassemblers - {id};
    }
  }

  // ----- eviction

  lemma {:induction false} RemoveLast(list: seq<int>)
    requires NoDup(list) && |list| > 0
    ensures Remove(list, list[|list| - 1]) == list[..|list| - 1]
    decreases |list|
  {
    var n := |list| - 1;
    if n > 0 {
      Tail(list);
      assert list[1..][n - 1] == list[n];
      RemoveLast(list[1..]);
      assert list[..n] == [list[0]] + list[1..][..n - 1];
    }
  }

  /** The oldest goes: the front of the list stays. */
  lemma EvictOne(f: State)
    requires Budget(f) && |f.list| > 0
    ensures var n := |f.list| - 1; var id := f.list[n]; var e := Release(f, id);
      && id in f.reassemblers && Budget(e) && (e.high, e.low, e.timeout) == (f.high, f.low, f.timeout)
      && e.list == f.list[..n] && e.size + f.reassemblers[id].size == f.size
      && e.reassemblers == f.reassemblers - {id}
  {
    hide NoDup, Total;
    var id := f.list[|f.list| - 1];
    assert id in f.list;
    RemoveLast(f.list);
    ReleaseKeeps(f, id);
  }

  lemma SizeKnown(f: State)
    requires Budget(f)
    ensures f.list == [] ==> f.size <= f.low
  {
  }

  /** The oldest go, and no more of them than it takes: what stays is the front of the list,
    * within the low limit unless it is empty; had one fewer gone, it would be above it. */
  lemma {:induction false} EvictKeeps(f: State)
    requires Budget(f)
    ensures var g := Evict(f, f.list);
      && Budget(g) && (g.high, g.low, g.timeout) == (f.high, f.low, f.timeout)
      && g.list <= f.list && g.size <= g.low
      && (forall id :: id in g.reassemblers ==> id in f.reassemblers && g.reassemblers[id] == f.reassemblers[id])
      && (if |g.list| == |f.list| then g == f
          else f.list[|g.list|] in f.reassemblers && g.size + f.reassemblers[f.list[|g.list|]].size > g.low)
    decreases |f.list|
  {
    hide Budget, Release;
    SizeKnown(f);
    if f.size > f.low && |f.list| > 0 {
      EvictOne(f);
      var e := Release(f, f.list[|f.list| - 1]);
      EvictKeeps(e);
      var g := Evict(e, e.list);
      if |g.list| < |e.list| {
        assert e.list[|g.list|] == f.list[|g.list|];
      }
    }
  }

  /** Whatever arrives: the memory counter is the sum of what the live reassemblers hold, map and
    * list agree, and after every call the counter is within the high limit. */
  lemma ProcessKeeps(f: State, id: int, first: nat, last: nat, more: bool, data: seq<byte>, now: int)
    requires Budget(f)
    ensures var (g, o) := Process(f, id, first, last, more, data, now);
      && Budget(g) && (g.high, g.low, g.timeout) == (f.high, f.low, f.timeout)
      && (!o.Panic? && g.high >= 0 ==> g.size <= g.high)
  {
    hide Lookup, Take, Evict, Budget;
    LookupKeeps(f, id, now);
    TakeKeeps(Lookup(f, id, now), id, first, last, more, data);
    var g := Take(Lookup(f, id, now), id, first, last, more, data).0;
    EvictKeeps(g);
    Limits(g);
  }

  lemma Limits(f: State)
    requires Budget(f)
    ensures f.high >= 0 ==> f.low <= f.high
  {
  }

  lemma NewKeeps(high: int, low: int, timeout: int)
    ensures Budget(New(high, low, timeout))
  {
  }

  // ----- runs

  /** A fragment of datagram `whole` arrives. */
  datatype Event = Event(id: int, whole: seq<byte>, first: nat, last: nat, more: bool, data: seq<byte>, now: int)

  /** Each reassembler is fed with pieces of one datagram: of whose[id], as long as it lives. */
  ghost predicate Fed(f: State, whose: map<int, seq<byte>>) {
    forall id :: id in f.reassemblers ==> id in whose && R.Inv(whose[id], f.reassemblers[id])
  }

  ghost predicate Possible(f: State, whose: map<int, seq<byte>>, e: Event) {
    && R.IsPiece(e.whole, e.first, e.last, e.more, e.data)
    && (Live(f, e.id, e.now) ==> e.id in whose && whose[e.id] == e.whole)
  }

  function Apply(f: State, e: Event): (State, R.Outcome) {
    Process(f, e.id, e.first, e.last, e.more, e.data, e.now)
  }

  /** One fragment of any datagram: what comes out, if anything, is that datagram, whole. */
  lemma ApplyKeeps(f: State, whose: map<int, seq<byte>>, e: Event)
    requires Budget(f) && Fed(f, whose) && Possible(f, whose, e)
    ensures var (g, o) := Apply(f, e);
      && Budget(g) && Fed(g, whose[e.id := e.whole]) && (g.high >= 0 ==> g.size <= g.high)
      && (o.Incomplete? || o == R.Complete(e.whole))
  {
    hide Lookup, Take, Evict, Budget, R.Inv, R.Process, R.IsPiece, R.Covers;
    LookupKeeps(f, e.id, e.now);
    var l := Lookup(f, e.id, e.now);
    R.NewKeeps(e.whole, e.now) by { PieceOfSomething(e); }
    R.ProcessKeeps(e.whole, l.reassemblers[e.id], e.first, e.last, e.more, e.data);
    TakeKeeps(l, e.id, e.first, e.last, e.more, e.data);
    var (g, o) := Take(l, e.id, e.first, e.last, e.more, e.data);
    assert Fed(g, whose[e.id := e.whole]);
    EvictKeeps(g);
    Limits(g);
  }

  lemma PieceOfSomething(e: Event)
    requires R.IsPiece(e.whole, e.first, e.last, e.more, e.data)
    ensures 0 < |e.whole| <= R.TOP + 1
  {
  }

  function Run(f: State, es: seq<Event>): State
    decreases |es|
  {
    if |es| == 0 then f else Run(Apply(f, es[0]).0, es[1..])
  }

  ghost predicate PossibleRun(f: State, whose: map<int, seq<byte>>, es: seq<Event>)
    decreases |es|
  {
    |es| == 0
    || (Possible(f, whose, es[0]) && PossibleRun(Apply(f, es[0]).0, whose[es[0].id := es[0].whole], es[1..]))
  }

  /** What came out of a run, with the datagram it should have been. */
  function Results(f: State, es: seq<Event>): seq<(R.Outcome, seq<byte>)>
    decreases |es|
  {
    if |es| == 0 then [] else [(Apply(f, es[0]).1, es[0].whole)] + Results(Apply(f, es[0]).0, es[1..])
  }

  /** Over any run, with fragments of many datagrams interleaved, timeouts and evictions: nothing
    * panics, and whatever comes out is what was sent. */
  lemma {:induction false} RunKeeps(f: State, whose: map<int, seq<byte>>, es: seq<Event>)
    requires Budget(f) && Fed(f, whose) && PossibleRun(f, whose, es)
    ensures Budget(Run(f, es)) && (|es| > 0 && f.high >= 0 ==> Run(f, es).size <= f.high)
    ensures forall k :: 0 <= k < |Results(f, es)| ==>
      var (o, whole) := Results(f, es)[k]; o.Incomplete? || o == R.Complete(whole)
    decreases |es|
  {
    hide Budget, Fed, Possible, Apply;
    if |es| > 0 {
      ApplyKeeps(f, whose, es[0]);
      KeepsLimits(f, es[0]);
      RunKeeps(Apply(f, es[0]).0, whose[es[0].id := es[0].whole], es[1..]);
    }
  }

  lemma KeepsLimits(f: State, e: Event)
    requires Budget(f)
    ensures Apply(f, e).0.high == f.high
  {
    hide Budget, Process;
    ProcessKeeps(f, e.id, e.first, e.last, e.more, e.data, e.now);
  }
}
