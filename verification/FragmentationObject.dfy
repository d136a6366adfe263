/** The reassembler and the table of reassemblers as the objects that reassembler.go,
  * frag_heap.go and fragmentation.go make of them: methods that update fields, each proved to
  * do exactly what the corresponding function of modules Reassembler and Fragmentation says.
  */
module FragmentationObject {
  import opened Packets
  import R = Reassembler
  import F = Fragmentation
  import Heap

  class Reassembler {
    const id: int
    var size: int
    var holes: seq<R.Hole>
    var deleted: nat
    var heap: seq<R.Fragment>
    var done: bool
    const creationTime: int

    function State(): R.State
      reads this
    {
      R.State(holes, deleted, heap, size, done, creationTime)
    }

    constructor (id: int, now: int)
      ensures State() == R.New(now) && this.id == id
    {
      this.id, size, deleted, heap, done, creationTime := id, 0, 0, [], false, now;
      holes := [R.Hole(0, R.TOP, false)];
    }

    method UpdateHoles(first: nat, last: nat, more: bool) returns (used: bool)
      modifies this`holes, this`deleted
      ensures R.Update(holes, deleted, used) == R.UpdateHoles(old(State()), first, last, more)
    {
      hide R.Skips;
      used := false;
      ghost var start := R.Update(holes, deleted, false);
      // the range is fixed when the loop begins: holes appended meanwhile are not visited
      var n := |holes|;
      for i := 0 to n
        invariant n <= |holes|
        invariant R.Fill(R.Update(holes, deleted, used), i, n, first, last, more) ==
          R.Fill(start, 0, n, first, last, more)
      {
        var h := holes[i];
        if R.Skips(h, first, last) {
          continue;
        }
        used := true;
        deleted := deleted + 1;
        ghost var before := holes;
        holes := holes[i := h.(deleted := true)];
        if first > h.first {
          holes := holes + [R.Hole(h.first, first - 1, false)];
        }
        if last < h.last && more {
          holes := holes + [R.Hole(last + 1, h.last, false)];
        }
        assert holes == before[i := h.(deleted := true)] + R.Leftovers(h, first, last, more);
      }
    }

    /** reassemble; ok is false for the two errors. */
    method Reassemble() returns (whole: seq<byte>, ok: bool)
      requires |heap| > 0
      modifies this`heap
      ensures ok == R.Reassemble(old(heap)).Whole?
      ensures ok ==> R.Reassemble(old(heap)) == R.Whole(whole) && heap == []
    {
      hide Heap.Rest;
      ghost var was := heap;
      var curr := heap[0];
      heap := Heap.Rest(R.Less, heap);
      whole := curr.data;
      if curr.offset != 0 {
        return whole, false;
      }
      while |heap| > 0
        invariant R.Reassemble(was) == R.Assemble(heap, whole)
        decreases |heap|
      {
        curr := heap[0];
        heap := Heap.Rest(R.Less, heap);
        if curr.offset < |whole| {
          curr := curr.(data := Drop(curr.data, |whole| - curr.offset));
        } else if curr.offset > |whole| {
          return whole, false;
        }
        whole := whole + curr.data;
      }
      ok := true;
    }

    method Process(first: nat, last: nat, more: bool, data: seq<byte>) returns (o: R.Outcome, consumed: nat)
      modifies this
      ensures var (t, p, c) := R.Process(old(State()), first, last, more, data);
        o == p && consumed == c && (!o.Panic? ==> State() == t)
    {
      hide R.Fill, R.Reassemble, Heap.Push;
      consumed := 0;
      if done {
        return R.Incomplete, consumed;
      }
      var used := UpdateHoles(first, last, more);
      if used {
        heap := Heap.Push(R.Less, heap, R.Fragment(first, data));
        consumed := |data|;
        size := size + consumed;
      }
      if deleted < |holes| {
        return R.Incomplete, consumed;
      }
      if |heap| == 0 {
        return R.Panic, consumed;
      }
      var whole, ok := Reassemble();
      o := if ok then R.Complete(whole) else R.Panic;
    }

    method CheckDoneOrMark() returns (prev: bool)
      modifies this`done
      ensures done && prev == old(done)
    {
      prev := done;
      done := true;
    }
  }

  class Fragmentation {
    const highLimit: int
    const lowLimit: int
    const timeout: int
    var reassemblers: map<int, Reassembler>
    var rList: seq<Reassembler>
    var size: int

    static function Members(table: map<int, Reassembler>): set<object> {
      set id | id in table :: table[id]
    }

    ghost function Objects(): set<object>
      reads this
    {
      Members(reassemblers)
    }

    /** Each live reassembler is its own object, under its own id, on the list, and not marked done. */
    ghost predicate Valid()
      reads this, Objects()
    {
      Tabled(reassemblers, rList) && forall id :: id in reassemblers ==> !reassemblers[id].done
    }

    static predicate Distinct(list: seq<Reassembler>) {
      forall i, j :: 0 <= i < j < |list| ==> list[i] != list[j]
    }

    static ghost function Ids(list: seq<Reassembler>): (ids: seq<int>)
      ensures |ids| == |list| && forall i :: 0 <= i < |list| ==> ids[i] == list[i].id
    {
      seq(|list|, i requires 0 <= i < |list| => list[i].id)
    }

    ghost function State(): F.State
      reads this, Objects()
    {
      F.State(map id | id in reassemblers :: reassemblers[id].State(), Ids(rList), size, highLimit, lowLimit, timeout)
    }

    constructor (high: int, low: int, timeout: int)
      ensures Valid() && State() == F.New(high, low, timeout)
    {
      var l := if low >= high then high else low;
      highLimit, lowLimit, this.timeout := high, if l < 0 then 0 else l, timeout;
      reassemblers, rList, size := map[], [], 0;
    }

    static function Without(list: seq<Reassembler>, r: Reassembler): seq<Reassembler> {
      if |list| == 0 then [] else if list[0] == r then list[1..] else [list[0]] + Without(list[1..], r)
    }

    static lemma {:induction false} WithoutIds(list: seq<Reassembler>, r: Reassembler)
      requires forall i :: 0 <= i < |list| ==> (list[i].id == r.id <==> list[i] == r)
      ensures Ids(Without(list, r)) == F.Remove(Ids(list), r.id)
      decreases |list|
    {
      if |list| > 0 {
        assert Ids(list)[1..] == Ids(list[1..]);
        if list[0] != r {
          WithoutIds(list[1..], r);
        }
      }
    }

    static lemma {:induction false} WithoutIn(list: seq<Reassembler>, r: Reassembler)
      requires Distinct(list)
      ensures var w := Without(list, r); Distinct(w) && forall i :: 0 <= i < |w| ==> w[i] in list && w[i] != r
      decreases |list|
    {
      if |list| > 0 {
        assert list == [list[0]] + list[1..];
        assert forall i :: 0 <= i < |list| - 1 ==> list[1..][i] == list[i + 1];
        assert list[0] !in list[1..] && Distinct(list[1..]);
        if list[0] != r {
          WithoutIn(list[1..], r);
        }
      }
    }

    static lemma {:induction false} WithoutLast(list: seq<Reassembler>)
      requires Distinct(list) && |list| > 0
      ensures Without(list, list[|list| - 1]) == list[..|list| - 1]
      decreases |list|
    {
      var n := |list| - 1;
      if n > 0 {
        assert list[1..][n - 1] == list[n];
        WithoutLast(list[1..]);
        assert list[..n] == [list[0]] + list[1..][..n - 1];
      }
    }

    /** r leaves the map, the list and the count. */
    method Forget(r: Reassembler)
      modifies this`reassemblers, this`rList, this`size
      ensures reassemblers == old(reassemblers) - {r.id} && rList == Without(old(rList), r)
      ensures size == if old(size) - r.size < 0 then 0 else old(size) - r.size
    {
      reassemblers := reassemblers - {r.id};
      rList := Without(rList, r);
      size := size - r.size;
      if size < 0 {
        size := 0;
      }
    }

    /** Which objects are in a table and on a list, apart from what their fields hold. */
    static ghost predicate Tabled(table: map<int, Reassembler>, list: seq<Reassembler>) {
      && (forall id :: id in table ==> table[id].id == id)
      && (forall i :: 0 <= i < |list| ==> list[i].id in table && table[list[i].id] == list[i])
      && Distinct(list)
    }

    static lemma TabledWithout(table: map<int, Reassembler>, list: seq<Reassembler>, r: Reassembler)
      requires Tabled(table, list) && r.id in table && table[r.id] == r
      ensures Tabled(table - {r.id}, Without(list, r))
    {
      WithoutIn(list, r);
      var w := Without(list, r);
      forall i | 0 <= i < |w|
        ensures w[i].id in table - {r.id} && table[w[i].id] == w[i]
      {
        var j :| 0 <= j < |list| && list[j] == w[i];
      }
    }

    static lemma MembersWithout(table: map<int, Reassembler>, r: Reassembler)
      requires r.id in table && table[r.id] == r && forall id :: id in table ==> table[id].id == id
      ensures Members(table - {r.id}) == Members(table) - {r}
    {
      forall o | o in Members(table) - {r}
        ensures o in Members(table - {r.id})
      {
        var id :| id in table && table[id] == o;
        assert id in table - {r.id} && (table - {r.id})[id] == o;
      }
    }

    method Release(r: Reassembler)
      requires Valid() && r in Objects()
      modifies this`reassemblers, this`rList, this`size, r`done
      ensures Valid() && State() == F.Release(old(State()), r.id)
      ensures Objects() == old(Objects()) - {r} && rList == Without(old(rList), r)
    {
      hide F.Remove, Without, Distinct;
      ghost var was := State();
      ghost var table := reassemblers;
      assert r.id in table && table[r.id] == r && !r.done && Tabled(table, rList);
      WithoutIds(rList, r);
      TabledWithout(table, rList, r);
      MembersWithout(table, r);
      // a live reassembler was never marked before
      var prev := r.CheckDoneOrMark();
      assert !prev;
      Forget(r);
      assert State().reassemblers == was.reassemblers - {r.id};
    }

    method Create(id: int, now: int) returns (r: Reassembler)
      requires Valid() && id !in reassemblers
      modifies this`reassemblers, this`rList
      ensures Valid() && fresh(r) && Objects() == old(Objects()) + {r}
      ensures State() == old(State()).(
        reassemblers := old(State()).reassemblers[id := R.New(now)], list := [id] + old(State()).list)
      ensures id in reassemblers && reassemblers[id] == r && r.id == id
    {
      ghost var was := State();
      r := new Reassembler(id, now);
      reassemblers := reassemblers[id := r];
      rList := [r] + rList;
      assert State().reassemblers == was.reassemblers[id := R.New(now)];
      assert reassemblers[id] == r;
      forall o | o in old(Objects())
        ensures o in Objects()
      {
        var k :| k in old(reassemblers) && old(reassemblers)[k] == o;
        assert k in reassemblers && reassemblers[k] == o;
      }
    }

    /** The reassembler of id; a new one if there is none, or one that is too old. */
    method Lookup(id: int, now: int) returns (r: Reassembler)
      requires Valid()
      modifies this, Objects()
      ensures Valid() && State() == F.Lookup(old(State()), id, now) && fresh(Objects() - old(Objects()))
      ensures id in reassemblers && reassemblers[id] == r && r.id == id
    {
      hide F.Release;
      if id in reassemblers {
        r := reassemblers[id];
        if now - r.creationTime <= timeout {
          return r;
        }
        ghost var was := State();
        Release(r);
        GoneAfter(was, id);
      } else {
        NoneToRelease(State(), id);
      }
      r := Create(id, now);
    }

    static lemma GoneAfter(f: F.State, id: int)
      requires id in f.reassemblers && !f.reassemblers[id].done
      ensures id !in F.Release(f, id).reassemblers
    {
    }

    static lemma NoneToRelease(f: F.State, id: int)
      requires id !in f.reassemblers
      ensures F.Release(f, id) == f
    {
    }

    /** process of the reassembler r, and the counts after it. */
    method Take(r: Reassembler, first: nat, last: nat, more: bool, data: seq<byte>) returns (o: R.Outcome)
      requires Valid() && r in Objects()
      modifies this, Objects()
      ensures var (t, p) := F.Take(old(State()), r.id, first, last, more, data);
        o == p && (!o.Panic? ==> Valid() && State() == t)
      ensures Objects() <= old(Objects())
    {
      hide R.Process;
      var consumed: nat;
      ghost var before := State();
      KeepsDone(r.State(), first, last, more, data);
      o, consumed := r.Process(first, last, more, data);
      if o.Panic? {
        return;
      }
      size := size + consumed;
      assert forall id :: id in reassemblers && id != r.id ==> reassemblers[id] != r;
      assert State().reassemblers ==
        before.reassemblers[r.id := R.Process(before.reassemblers[r.id], first, last, more, data).0];
      if o.Complete? {
        Release(r);
      }
    }

    static lemma KeepsDone(r: R.State, first: nat, last: nat, more: bool, data: seq<byte>)
      ensures R.Process(r, first, last, more, data).0.done == r.done
      ensures R.Process(r, first, last, more, data).0.created == r.created
    {
      hide R.UpdateHoles, R.Reassemble;
    }

    /** The loop that throws out the oldest: the one before the last is the last once it is gone. */
    method Evict()
      requires Valid()
      modifies this, Objects()
      ensures Valid() && State() == F.Evict(old(State()), old(State()).list)
    {
      hide F.Release;
      while size > lowLimit && |rList| > 0
        invariant Valid() && Objects() <= old(Objects())
        invariant F.Evict(State(), Ids(rList)) == F.Evict(old(State()), old(State()).list)
        decreases |rList|
      {
        var tail := rList[|rList| - 1];
        ghost var list := rList;
        WithoutLast(rList);
        assert tail in rList;
        Release(tail);
        assert Ids(rList) == Ids(list)[..|list| - 1];
      }
    }

    method Process(id: int, first: nat, last: nat, more: bool, data: seq<byte>, now: int) returns (o: R.Outcome)
      requires Valid()
      modifies this, Objects()
      ensures var (t, p) := F.Process(old(State()), id, first, last, more, data, now);
        o == p && (!o.Panic? ==> Valid() && State() == t)
    {
      hide F.Lookup, F.Take, F.Evict;
      var r := Lookup(id, now);
      o := Take(r, first, last, more, data);
      if !o.Panic? && size > highLimit {
        Evict();
      }
    }
  }
}
