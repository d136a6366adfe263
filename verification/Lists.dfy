/** The intrusive doubly linked list that tcp_segment_list.go and reassembler_list.go instantiate,
  * against the sequence of its members.
  */
module Lists {
  class Node {
    var next: Node?
    var prev: Node?

    constructor ()
      ensures next == null && prev == null
    {
      next, prev := null, null;
    }
  }

  function At(nodes: seq<Node>, i: int): Node? {
    if 0 <= i < |nodes| then nodes[i] else null
  }

  predicate Succ(i: int, j: int) {
    j == i + 1
  }

  ghost predicate Distinct(nodes: seq<Node>) {
    forall i, j :: 0 <= i < j < |nodes| ==> nodes[i] != nodes[j]
  }

  /** Each member is tied to the one after it, and the ends to nothing. */
  ghost predicate Linked(nodes: seq<Node>)
    reads nodes
  {
    && (|nodes| > 0 ==> nodes[0].prev == null && nodes[|nodes| - 1].next == null)
    && (forall i, j {:trigger Succ(i, j)} :: 0 <= i < j < |nodes| && Succ(i, j) ==>
          nodes[i].next == nodes[j] && nodes[j].prev == nodes[i])
  }

  /** Linked, but for the two ends. */
  ghost predicate Inside(nodes: seq<Node>)
    reads nodes
  {
    forall i, j {:trigger Succ(i, j)} :: 0 <= i < j < |nodes| && Succ(i, j) ==>
      nodes[i].next == nodes[j] && nodes[j].prev == nodes[i]
  }

  lemma Joined(a: seq<Node>, b: seq<Node>)
    requires Inside(a) && Inside(b)
    requires |a| > 0 && |b| > 0 ==> a[|a| - 1].next == b[0] && b[0].prev == a[|a| - 1]
    ensures Inside(a + b)
  {
    var c := a + b;
    forall i, j | 0 <= i < j < |c| && Succ(i, j)
      ensures c[i].next == c[j] && c[j].prev == c[i]
    {
      assert Succ(i - |a|, j - |a|);
    }
  }

  lemma Parts(nodes: seq<Node>, k: nat)
    requires Inside(nodes) && k <= |nodes|
    ensures Inside(nodes[..k]) && Inside(nodes[k..])
  {
    var b := nodes[k..];
    forall i, j | 0 <= i < j < |b| && Succ(i, j)
      ensures b[i].next == b[j] && b[j].prev == b[i]
    {
      assert Succ(i + k, j + k);
    }
  }

  /** The links of the members with index k and of its neighbours. */
  lemma Neighbours(nodes: seq<Node>, k: nat)
    requires Linked(nodes) && k < |nodes|
    ensures nodes[k].next == At(nodes, k + 1) && nodes[k].prev == At(nodes, k - 1)
  {
    assert Succ(k, k + 1) && Succ(k - 1, k);
  }

  class List {
    var head: Node?
    var tail: Node?
    ghost var nodes: seq<Node>

    ghost predicate Valid()
      reads this, nodes
    {
      head == At(nodes, 0) && tail == At(nodes, |nodes| - 1) && Distinct(nodes) && Linked(nodes)
    }

    lemma Known(k: nat)
      requires Valid() && k < |nodes|
      ensures nodes[k].next == At(nodes, k + 1) && nodes[k].prev == At(nodes, k - 1)
    {
      Neighbours(nodes, k);
    }

    constructor ()
      ensures Valid() && nodes == []
    {
      head, tail, nodes := null, null, [];
    }

    method PushFront(e: Node)
      requires Valid() && e !in nodes
      modifies this, e, head
      ensures Valid() && nodes == [e] + old(nodes)
    {
      ghost var was := nodes;
      e.next := head;
      e.prev := null;
      if head != null {
        head.prev := e;
      } else {
        tail := e;
      }
      head := e;
      nodes := [e] + nodes;
      Joined([e], was);
    }

    method PushBack(e: Node)
      requires Valid() && e !in nodes
      modifies this, e, tail
      ensures Valid() && nodes == old(nodes) + [e]
    {
      ghost var was := nodes;
      e.next := null;
      e.prev := tail;
      if tail != null {
        tail.next := e;
      } else {
        head := e;
      }
      tail := e;
      nodes := nodes + [e];
      Joined(was, [e]);
    }

    /** m's members move to the end of this list; m is left empty. */
    method PushBackList(m: List)
      requires Valid() && m.Valid() && m != this
      requires forall i, j :: 0 <= i < |m.nodes| && 0 <= j < |nodes| ==> m.nodes[i] != nodes[j]
      modifies this, m, tail, m.head
      ensures Valid() && nodes == old(nodes) + old(m.nodes)
      ensures m.Valid() && m.nodes == []
    {
      ghost var a, b := nodes, m.nodes;
      if head == null {
        head := m.head;
        tail := m.tail;
      } else if m.head != null {
        tail.next := m.head;
        m.head.prev := tail;
        tail := m.tail;
      }
      Joined(a, b);
      m.head := null;
      m.tail := null;
      nodes := a + b;
      m.nodes := [];
    }

    /** k: where b is. */
    method InsertAfter(b: Node, e: Node, ghost k: nat)
      requires Valid() && k < |nodes| && nodes[k] == b && e !in nodes
      modifies this, e, b, b.next
      ensures Valid() && nodes == old(nodes)[..k + 1] + [e] + old(nodes)[k + 1..]
    {
      ghost var front, back := nodes[..k + 1], nodes[k + 1..];
      Neighbours(nodes, k);
      Parts(nodes, k + 1);
      var a := b.next;
      e.next := a;
      e.prev := b;
      b.next := e;
      if a != null {
        a.prev := e;
      } else {
        tail := e;
      }
      Joined(front, [e]);
      Joined(front + [e], back);
      nodes := front + [e] + back;
    }

    /** k: where e is. Its own links stay as they were: a caller may go on from them. */
    method Remove(e: Node, ghost k: nat)
      requires Valid() && k < |nodes| && nodes[k] == e
      modifies this, e.prev, e.next
      ensures Valid() && nodes == old(nodes)[..k] + old(nodes)[k + 1..]
      ensures e.prev == old(At(nodes, k - 1)) && e.next == old(At(nodes, k + 1))
    {
      hide Linked, Inside, Distinct;
      Around(nodes, k);
      ghost var front, back := nodes[..k], nodes[k + 1..];
      Tie(e.prev, e.next, e, front, back);
      if e.prev == null {
        head := e.next;
      }
      if e.next == null {
        tail := e.prev;
      }
      nodes := front + back;
    }

    /** The two nodes around e are tied to each other. */
    static method Tie(prev: Node?, next: Node?, e: Node, ghost front: seq<Node>, ghost back: seq<Node>)
      requires prev == At(front, |front| - 1) && next == At(back, 0) && e !in front && e !in back
      requires Distinct(front) && Distinct(back)
      requires forall i, j :: 0 <= i < |front| && 0 <= j < |back| ==> front[i] != back[j]
      requires Inside(front) && Inside(back)
      requires (|front| > 0 ==> front[0].prev == null) && (|back| > 0 ==> back[|back| - 1].next == null)
      modifies prev, next
      ensures Linked(front + back) && Distinct(front + back)
    {
      if prev != null {
        prev.next := next;
      }
      if next != null {
        next.prev := prev;
      }
      Joined(front, back);
    }

    /** A list around its member k. */
    static lemma Around(nodes: seq<Node>, k: nat)
      requires Linked(nodes) && Distinct(nodes) && k < |nodes|
      ensures var front, back := nodes[..k], nodes[k + 1..];
        && Inside(front) && Inside(back) && Distinct(front) && Distinct(back)
        && (forall i, j :: 0 <= i < |front| && 0 <= j < |back| ==> front[i] != back[j])
        && nodes[k] !in front && nodes[k] !in back
        && nodes[k].prev == At(front, |front| - 1) && nodes[k].next == At(back, 0)
        && (|front| > 0 ==> front[0].prev == null) && (|back| > 0 ==> back[|back| - 1].next == null)
    {
      Neighbours(nodes, k);
      Parts(nodes, k);
      Parts(nodes, k + 1);
    }
  }

  /** The eviction loop of Process: from the back, each step from the links of a node that is
    * already gone, it removes exactly the last n members. */
  method RemoveFromBack(l: List, n: nat)
    requires l.Valid() && n <= |l.nodes|
    modifies l, l.nodes
    ensures l.Valid() && l.nodes == old(l.nodes)[..|old(l.nodes)| - n]
  {
    hide Distinct, Linked;
    var tail := l.tail;
    ghost var all := l.nodes;
    var i := 0;
    while i < n
      invariant i <= n && l.Valid() && l.nodes == all[..|all| - i] && tail == At(l.nodes, |l.nodes| - 1)
    {
      assert forall j :: 0 <= j < |l.nodes| ==> l.nodes[j] == all[j];
      ghost var k := |l.nodes| - 1;
      assert k > 0 ==> all[k - 1] in all;
      l.Known(k);
      l.Remove(tail, k);
      tail := tail.prev;
      i := i + 1;
    }
  }
}
