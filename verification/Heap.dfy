/** The binary heap of Go's container/heap over a slice, with the Less/Swap/Push/Pop that
  * segment_heap.go and frag_heap.go supply. A heap that only reads Less is a function of
  * the slice and of Less.
  */
module Heap {
  function Swap<T>(h: seq<T>, i: nat, j: nat): (r: seq<T>)
    requires i < |h| && j < |h|
    ensures |r| == |h|
    ensures multiset(r) == multiset(h)
  {
    h[i := h[j]][j := h[i]]
  }

  function Up<T>(less: (T, T) -> bool, h: seq<T>, j: nat): (r: seq<T>)
    requires j < |h|
    ensures |r| == |h|
    ensures multiset(r) == multiset(h)
    decreases j
  {
    if j == 0 || !less(h[j], h[(j - 1) / 2]) then h
    else Up(less, Swap(h, (j - 1) / 2, j), (j - 1) / 2)
  }

  function SmallerChild<T>(less: (T, T) -> bool, h: seq<T>, i: nat, n: nat): (j: nat)
    requires 2 * i + 1 < n <= |h|
    ensures j == 2 * i + 1 || j == 2 * i + 2
    ensures j < n
  {
    if 2 * i + 2 < n && less(h[2 * i + 2], h[2 * i + 1]) then 2 * i + 2 else 2 * i + 1
  }

  function Down<T>(less: (T, T) -> bool, h: seq<T>, i: nat, n: nat): (r: seq<T>)
    requires n <= |h|
    ensures |r| == |h|
    ensures multiset(r) == multiset(h)
    decreases n - i
  {
    if 2 * i + 1 >= n then h
    else
      var j := SmallerChild(less, h, i, n);
      if !less(h[j], h[i]) then h else Down(less, Swap(h, i, j), j, n)
  }

  function Push<T>(less: (T, T) -> bool, h: seq<T>, x: T): (r: seq<T>)
    ensures multiset(r) == multiset(h) + multiset{x}
    ensures |r| == |h| + 1
  {
    Up(less, h + [x], |h|)
  }

  /** What stays in the slice after heap.Pop; the element handed out is h[0]. */
  function Rest<T>(less: (T, T) -> bool, h: seq<T>): (r: seq<T>)
    requires |h| > 0
    ensures |r| == |h| - 1
  {
    var n := |h| - 1;
    Down(less, Swap(h, 0, n), 0, n)[..n]
  }

  // ----- order

  /** Less is the order of an integer key on every element of the slice. */
  ghost predicate Keyed<T(!new)>(less: (T, T) -> bool, key: T -> int, h: seq<T>) {
    forall a, b :: a in multiset(h) && b in multiset(h) ==> (less(a, b) <==> key(a) < key(b))
  }

  ghost predicate Child(p: int, i: int) {
    i == 2 * p + 1 || i == 2 * p + 2
  }

  ghost predicate Ordered<T>(key: T -> int, h: seq<T>) {
    forall p, i :: 0 <= p < i < |h| && Child(p, i) ==> key(h[p]) <= key(h[i])
  }

  /** Order everywhere but between the root and its children. */
  ghost predicate OrderedBelowRoot<T>(key: T -> int, h: seq<T>) {
    forall p, i :: 0 < p < i < |h| && Child(p, i) ==> key(h[p]) <= key(h[i])
  }

  lemma {:induction false} RootIsLeast<T>(key: T -> int, h: seq<T>, i: nat)
    requires Ordered(key, h) && i < |h|
    ensures key(h[0]) <= key(h[i])
    decreases i
  {
    if i > 0 {
      assert Child((i - 1) / 2, i);
      RootIsLeast(key, h, (i - 1) / 2);
    }
  }

  /** Order everywhere but between j and its parent; j's children are above that parent. */
  ghost predicate UpInv<T>(key: T -> int, h: seq<T>, j: nat) {
    && (forall p, i :: 0 <= p < i < |h| && i != j && Child(p, i) ==> key(h[p]) <= key(h[i]))
    && (forall q, i :: 0 <= q < j < i < |h| && Child(q, j) && Child(j, i) ==> key(h[q]) <= key(h[i]))
  }

  lemma UpStep<T>(key: T -> int, h: seq<T>, p: nat, j: nat)
    requires p < j < |h| && Child(p, j) && UpInv(key, h, j) && key(h[j]) < key(h[p])
    ensures UpInv(key, Swap(h, p, j), p)
  {
    var g := Swap(h, p, j);
    forall a, i | 0 <= a < i < |g| && i != p && Child(a, i)
      ensures key(g[a]) <= key(g[i])
    {
      assert a != j && i != j ==> a == p || g[a] == h[a];
    }
    forall q, i | 0 <= q < p < i < |g| && Child(q, p) && Child(p, i)
      ensures key(g[q]) <= key(g[i])
    {
      assert i == j || key(h[p]) <= key(h[i]);
    }
  }

  lemma {:induction false} UpOrdered<T(!new)>(less: (T, T) -> bool, key: T -> int, h: seq<T>, j: nat)
    requires j < |h| && Keyed(less, key, h) && UpInv(key, h, j)
    ensures Ordered(key, Up(less, h, j))
    decreases j
  {
    if j > 0 {
      var p := (j - 1) / 2;
      assert Child(p, j);
      assert h[j] in multiset(h) && h[p] in multiset(h);
      if less(h[j], h[p]) {
        UpStep(key, h, p, j);
        UpOrdered(less, key, Swap(h, p, j), p);
      } else {
        assert forall a :: Child(a, j) ==> a == p;
      }
    }
  }

  lemma PushOrdered<T(!new)>(less: (T, T) -> bool, key: T -> int, h: seq<T>, x: T)
    requires Ordered(key, h) && Keyed(less, key, h + [x])
    ensures Ordered(key, Push(less, h, x))
  {
    UpOrdered(less, key, h + [x], |h|);
  }

  /** Order among the first n except between i and its children, which are above i's parent. */
  ghost predicate DownInv<T>(key: T -> int, h: seq<T>, i: nat, n: nat)
    requires n <= |h|
  {
    && (forall p, k :: 0 <= p < k < n && p != i && Child(p, k) ==> key(h[p]) <= key(h[k]))
    && (forall q, k :: 0 <= q < i < k < n && Child(q, i) && Child(i, k) ==> key(h[q]) <= key(h[k]))
  }

  lemma DownStep<T>(key: T -> int, h: seq<T>, i: nat, j: nat, n: nat)
    requires i < j < n <= |h| && Child(i, j) && DownInv(key, h, i, n) && key(h[j]) < key(h[i])
    requires forall k :: i < k < n && Child(i, k) ==> key(h[j]) <= key(h[k])
    ensures DownInv(key, Swap(h, i, j), j, n)
  {
    var g := Swap(h, i, j);
    forall p, k | 0 <= p < k < n && p != j && Child(p, k)
      ensures key(g[p]) <= key(g[k])
    {
      if p == i {
        assert g[p] == h[j];
      } else if k == i {
        assert Child(p, i) && Child(i, j);
      }
    }
    forall q, k | 0 <= q < j < k < n && Child(q, j) && Child(j, k)
      ensures key(g[q]) <= key(g[k])
    {
      assert q == i;
    }
  }

  lemma SmallerChildLeast<T(!new)>(less: (T, T) -> bool, key: T -> int, h: seq<T>, i: nat, n: nat)
    requires 2 * i + 1 < n <= |h| && Keyed(less, key, h)
    ensures var j := SmallerChild(less, h, i, n);
      && Child(i, j) && i < j < n && (less(h[j], h[i]) <==> key(h[j]) < key(h[i]))
      && forall k :: i < k < n && Child(i, k) ==> key(h[j]) <= key(h[k])
  {
    var j := SmallerChild(less, h, i, n);
    assert h[i] in multiset(h) && h[2 * i + 1] in multiset(h) && h[j] in multiset(h);
    assert 2 * i + 2 < n ==> h[2 * i + 2] in multiset(h);
  }

  lemma {:induction false} DownOrdered<T(!new)>(less: (T, T) -> bool, key: T -> int, h: seq<T>, i: nat, n: nat)
    requires n <= |h| && Keyed(less, key, h) && DownInv(key, h, i, n)
    ensures Ordered(key, Down(less, h, i, n)[..n])
    ensures Down(less, h, i, n)[n..] == h[n..]
    decreases n - i
  {
    if 2 * i + 1 < n {
      var j := SmallerChild(less, h, i, n);
      SmallerChildLeast(less, key, h, i, n);
      if less(h[j], h[i]) {
        DownStep(key, h, i, j, n);
        DownOrdered(less, key, Swap(h, i, j), j, n);
      }
    }
  }

  /** heap.Pop hands out the root and leaves a heap of the rest, even when the root itself
    * was changed beforehand and is out of order. */
  lemma PopOrdered<T(!new)>(less: (T, T) -> bool, key: T -> int, h: seq<T>)
    requires |h| > 0 && Keyed(less, key, h) && OrderedBelowRoot(key, h)
    ensures Ordered(key, Rest(less, h))
  {
    var n := |h| - 1;
    DownOrdered(less, key, Swap(h, 0, n), 0, n);
  }

  lemma {:induction false} DownKeepsTail<T>(less: (T, T) -> bool, h: seq<T>, i: nat, n: nat)
    requires n <= |h|
    ensures Down(less, h, i, n)[n..] == h[n..]
    decreases n - i
  {
    if 2 * i + 1 < n {
      var j := SmallerChild(less, h, i, n);
      if less(h[j], h[i]) {
        DownKeepsTail(less, Swap(h, i, j), j, n);
      }
    }
  }

  /** Whatever Less says, heap.Pop loses nothing but the root. */
  lemma PopContents<T>(less: (T, T) -> bool, h: seq<T>)
    requires |h| > 0
    ensures multiset(Rest(less, h)) + multiset{h[0]} == multiset(h)
  {
    var n := |h| - 1;
    var g := Swap(h, 0, n);
    DownKeepsTail(less, g, 0, n);
    var d := Down(less, g, 0, n);
    assert d == d[..n] + d[n..];
    assert g[n..] == [h[0]];
  }
}
