/** Each call of the sleeper and its wakers, left alone, ends and does what it is for: Assert queues
  * the waker and wakes the owner, Fetch returns the first asserted waker in the queue, AddWaker and
  * Done finish.
  */
module SleepAlone {
  import opened Sleep
  import opened SleepProgress

  /** k steps of the owner. */
  function Owning(st: State, k: nat): (r: State)
    requires |st.next| == |st.link|
    ensures |r.next| == |r.link|
    decreases k
  {
    if k == 0 then st else Owning(OwnStep(st), k - 1)
  }

  lemma {:induction false} OwningMore(st: State, k: nat, j: nat)
    requires |st.next| == |st.link|
    ensures Owning(Owning(st, k), j) == Owning(st, k + j)
    decreases k
  {
    hide OwnStep;
    if k > 0 {
      OwningMore(OwnStep(st), k - 1, j);
    }
  }

  /** k steps of thread t. */
  function Working(st: State, t: nat, k: nat): (r: State)
    requires |st.next| == |st.link|
    ensures |r.next| == |r.link|
    decreases k
  {
    if k == 0 then st else Working(Step(st, Thread(t)), t, k - 1)
  }

  // ----- Assert

  /** What the steps of enqueueAssertedWaker from LoadG on leave behind when nobody interferes: nobody
    * is left preparing to sleep, and a parked owner is awake. */
  lemma RousesAlone(st: State, g: View, t: nat) returns (k: nat)
    requires Inv(st, g) && t < |st.threads| && st.threads[t].LoadG?
    ensures var n := Working(st, t, k);
      && |n.threads| == |st.threads| && n.threads[t].Idle? && n.waiting.Zero?
      && n.link == st.link && n.shared == st.shared && n.next == st.next
      && (st.waiting.Sleeping? ==> !AtPark(n.owner) && n.readies == st.readies + 1)
      && (!st.waiting.Sleeping? ==> n.owner == st.owner)
  {
    ParkedWhenSleeping(st, g);
    var a := Step(st, Thread(t));
    if st.waiting.Zero? {
      k := 1;
      assert Working(st, t, 1) == Working(a, t, 0);
    } else {
      var b := Step(a, Thread(t));
      var c := Step(b, Thread(t));
      if st.waiting.Preparing? {
        k := 3;
        assert Working(st, t, 3) == Working(a, t, 2) == Working(b, t, 1) == Working(c, t, 0);
      } else {
        var d := Step(c, Thread(t));
        k := 4;
        assert Working(st, t, 4) == Working(a, t, 3) == Working(b, t, 2) == Working(c, t, 1) == Working(d, t, 0);
      }
    }
  }

  lemma ParkedWhenSleeping(st: State, g: View)
    requires Inv(st, g)
    ensures st.waiting.Sleeping? ==> AtPark(st.owner)
    ensures |st.next| == |st.link|
  {
    hide Lists, Links, Pushers, Owns, Reading, Callers;
  }

  /** Assert of an associated waker pushes it, and wakes the owner if it sleeps. */
  lemma AssertAlone(st: State, g: View, t: nat, w: int) returns (k: nat)
    requires Inv(st, g) && t < |st.threads| && st.threads[t].Idle? && IsWaker(st, w) && st.link[w].Associated?
    ensures |st.next| == |st.link|
    ensures var n := Working(Step(st, BeginAssert(t, w)), t, k);
      && |n.threads| == |st.threads| && n.threads[t].Idle? && n.link == st.link[w := Asserted]
      && n.shared == w && n.next == st.next[w := st.shared]
      && n.waiting.Zero? && (st.waiting.Sleeping? ==> !AtPark(n.owner) && n.readies == st.readies + 1)
  {
    hide Inv, Lists;
    ParkedWhenSleeping(st, g);
    var a := Step(st, BeginAssert(t, w));
    var ga := StepKeeps(st, g, BeginAssert(t, w));
    var b := Step(a, Thread(t));
    var gb := StepKeeps(a, ga, Thread(t));
    var c := Step(b, Thread(t));
    var gc := StepKeeps(b, gb, Thread(t));
    var d := Step(c, Thread(t));
    var gd := StepKeeps(c, gc, Thread(t));
    var e := Step(d, Thread(t));
    var ge := StepKeeps(d, gd, Thread(t));
    var j := RousesAlone(e, ge, t);
    k := 4 + j;
    assert Working(a, t, k) == Working(b, t, 3 + j) == Working(c, t, 2 + j) == Working(d, t, 1 + j) == Working(e, t, j);
  }

  /** Of one that belongs to nobody, it only marks it; of an asserted one, it does nothing. */
  lemma AssertMarks(st: State, t: nat, w: int) returns (k: nat)
    requires |st.next| == |st.link| && t < |st.threads| && st.threads[t].Idle? && IsWaker(st, w)
    requires !st.link[w].Associated?
    ensures Working(Step(st, BeginAssert(t, w)), t, k) == st.(link := st.link[w := Asserted])
  {
    var a := Step(st, BeginAssert(t, w));
    var b := Step(a, Thread(t));
    if st.link[w].Asserted? {
      k := 1;
      assert Working(a, t, 1) == Working(b, t, 0);
      assert b.threads == st.threads && st.link == st.link[w := Asserted];
    } else {
      var c := Step(b, Thread(t));
      k := 2;
      assert Working(a, t, 2) == Working(b, t, 1) == Working(c, t, 0);
      assert c.threads == st.threads;
    }
  }

  /** Clear takes the assertion back, and touches nothing else. */
  lemma ClearAlone(st: State, t: nat, w: int) returns (k: nat)
    requires |st.next| == |st.link| && t < |st.threads| && st.threads[t].Idle? && IsWaker(st, w)
    ensures Working(Step(st, BeginClear(t, w)), t, k) ==
      st.(link := if st.link[w].Asserted? then st.link[w := Nil] else st.link)
  {
    var a := Step(st, BeginClear(t, w));
    var b := Step(a, Thread(t));
    if st.link[w].Asserted? {
      var c := Step(b, Thread(t));
      k := 2;
      assert Working(a, t, 2) == Working(b, t, 1) == Working(c, t, 0);
      assert c.threads == st.threads;
    } else {
      k := 1;
      assert Working(a, t, 1) == Working(b, t, 0);
      assert b.threads == st.threads;
    }
  }

  // ----- Fetch

  /** Everything but the lists and the owner. */
  ghost predicate SameElse(st: State, n: State) {
    n.link == st.link && n.threads == st.threads && n.all == st.all
  }

  lemma {:induction false} Reversing(st: State, g: View) returns (k: nat, g': View)
    requires Inv(st, g) && st.owner.InNext? && st.owner.at.Reverse?
    ensures |st.next| == |st.link| && |Queue(g)| > 0
    ensures var n := Owning(st, k); Inv(n, g') && Queue(g') == Queue(g)[1..]
    ensures k > 0 && Handing(Owning(st, k - 1), Owning(st, k), st.owner.purpose, Queue(g)[0])
    ensures Owning(st, k - 1).link == st.link && Owning(st, k).link == st.link && Owning(st, k).threads == st.threads
    decreases |g.pulled|
  {
    hide Inv, Queue, Chain;
    InvSizes(st, g);
    var n := OwnStep(st);
    if g.pulled != [] {
      var h := ReverseKeeps(st, g);
      ReverseTurn(st, g);
      var j;
      j, g' := Reversing(n, h);
      k := j + 1;
      assert Owning(st, k) == Owning(n, j) && Owning(st, k - 1) == Owning(n, j - 1);
    } else {
      NothingPulled(st, g);
      QueueNotEmpty(st, g) by { assert g.pulled == []; }
      g' := Pops(st, g);
      k := 1;
      assert Owning(st, 1) == Owning(n, 0);
    }
  }

  /** The owner, inside nextWaker for this purpose, is handed waker w. */
  predicate Handing(st: State, n: State, purpose: Purpose, w: int) {
    st.owner.InNext? && st.owner.purpose == purpose && Handed(st, n, w)
  }

  lemma ReverseTurn(st: State, g: View)
    requires Inv(st, g) && st.owner.InNext? && st.owner.at.Reverse? && g.pulled != []
    ensures var n := OwnStep(st);
      SameElse(st, n) && n.owner.InNext? && n.owner.at.Reverse? && n.owner.purpose == st.owner.purpose
  {
    PulledFirst(st, g);
  }

  lemma Pops(st: State, g: View) returns (g': View)
    requires Inv(st, g) && st.owner.InNext? && PulledHead(st.owner) == -1 && |Queue(g)| > 0
    requires (st.owner.at.First? && st.local != -1) || st.owner.at.Reverse?
    ensures Inv(OwnStep(st), g') && Handing(st, OwnStep(st), st.owner.purpose, Queue(g)[0])
    ensures Queue(g') == Queue(g)[1..]
    ensures OwnStep(st).link == st.link && OwnStep(st).threads == st.threads
  {
    hide Queue, Handed, Chain;
    PopsLeave(st, g);
    if st.owner.purpose.ToFetch? {
      g' := PopToFetch(st, g);
    } else {
      g' := PopToFinish(st, g);
    }
  }

  lemma PopsLeave(st: State, g: View)
    requires Inv(st, g) && st.owner.InNext? && PulledHead(st.owner) == -1
    requires (st.owner.at.First? && st.local != -1) || st.owner.at.Reverse?
    ensures OwnStep(st).link == st.link && OwnStep(st).threads == st.threads
  {
    hide Lists, Links, Pushers, Owns, Sleeps;
  }

  /** nextWaker, left alone, hands out the first of the queue. */
  lemma NextAlone(st: State, g: View) returns (k: nat, g': View)
    requires Inv(st, g) && st.owner.InNext? && st.owner.at.First? && |Queue(g)| > 0
    ensures |st.next| == |st.link|
    ensures var n := Owning(st, k); Inv(n, g') && Queue(g') == Queue(g)[1..]
    ensures k > 0 && Handing(Owning(st, k - 1), Owning(st, k), st.owner.purpose, Queue(g)[0])
    ensures Owning(st, k - 1).link == st.link && Owning(st, k).link == st.link && Owning(st, k).threads == st.threads
  {
    hide Inv, Queue, Lists, Handing;
    InvSizes(st, g);
    SharedHead(st, g);
    AtFirst(st, g);
    if st.local != -1 {
      g' := Pops(st, g);
      k := 1;
      assert Owning(st, 1) == Owning(OwnStep(st), 0);
    } else {
      SomethingShared(g);
      var a := OwnStep(st);
      WaitKeeps(st, g);
      var b := OwnStep(a);
      WaitKeeps(a, g);
      var c := OwnStep(b);
      var h := PullKeeps(b, g);
      var j;
      j, g' := Reversing(c, h);
      k := 3 + j;
      assert Owning(st, k) == Owning(a, 2 + j) == Owning(b, 1 + j) == Owning(c, j);
      assert Owning(st, k - 1) == Owning(a, 1 + j) == Owning(b, j) == Owning(c, j - 1);
    }
  }

  lemma AtFirst(st: State, g: View)
    requires Inv(st, g) && st.owner.InNext? && st.owner.at.First?
    ensures g.pulled == [] && PulledHead(st.owner) == -1
  {
    hide Lists, Links, Pushers, Owns, Sleeps;
  }

  lemma SomethingShared(g: View)
    requires g.pulled == [] && g.local == [] && |Queue(g)| > 0
    ensures g.shared != []
  {
  }

  /** The place of the first asserted waker in a queue; its length if there is none. */
  function FirstAsserted(link: seq<Link>, q: seq<int>): (i: nat)
    ensures i <= |q|
  {
    if |q| == 0 then 0
    else if 0 <= q[0] < |link| && link[q[0]].Asserted? then 0
    else 1 + FirstAsserted(link, q[1..])
  }

  lemma {:induction false} FirstSame(link: seq<Link>, more: seq<Link>, q: seq<int>)
    requires |more| == |link| && forall w :: w in q && 0 <= w < |link| ==> more[w] == link[w]
    ensures FirstAsserted(more, q) == FirstAsserted(link, q)
    decreases |q|
  {
    if |q| > 0 {
      assert q[0] in q;
      FirstSame(link, more, q[1..]);
    }
  }

  /** Fetch got waker w, its last step was from m to n. */
  predicate Fetched(m: State, n: State, w: int, block: bool) {
    m.owner == Swap(w, block) && n.owner.Resting?
  }

  /** Fetch from queue q is over: it got the first asserted waker, and what was behind that one is
    * still queued; or there was none, and nothing is left. */
  ghost predicate FetchEnds(link: seq<Link>, q: seq<int>, block: bool, m: State, n: State, g: View) {
    var i := FirstAsserted(link, q);
    && Inv(n, g) && n.owner.Resting?
    && (if i < |q| then Fetched(m, n, q[i], block) && Queue(g) == q[i + 1..] else Queue(g) == [] && m.owner.InNext?)
  }

  lemma FetchOn(link: seq<Link>, more: seq<Link>, q: seq<int>, block: bool, m: State, n: State, g: View)
    requires |q| > 0 && 0 <= q[0] < |link| && !link[q[0]].Asserted?
    requires FirstAsserted(more, q[1..]) == FirstAsserted(link, q[1..]) && FetchEnds(more, q[1..], block, m, n, g)
    ensures FetchEnds(link, q, block, m, n, g)
  {
    hide Inv, Queue;
    var i := FirstAsserted(link, q);
    assert i <= |q| - 1 ==> q[1..][i - 1..][1..] == q[i + 1..];
  }

  lemma FetchNow(link: seq<Link>, q: seq<int>, block: bool, m: State, n: State, g: View)
    requires |q| > 0 && 0 <= q[0] < |link| && link[q[0]].Asserted?
    requires Inv(n, g) && Fetched(m, n, q[0], block) && Queue(g) == q[1..]
    ensures FetchEnds(link, q, block, m, n, g)
  {
    hide Inv, Queue;
    assert q[0 + 1..] == q[1..];
  }

  /** Fetch, left alone, returns the first waker in the queue that is asserted; when none is and it
    * may not block, it returns with nothing. */
  lemma {:induction false} FetchAlone(st: State, g: View, block: bool) returns (k: nat, g': View)
    requires Inv(st, g) && st.owner == InNext(First, ToFetch(block))
    requires block ==> FirstAsserted(st.link, Queue(g)) < |Queue(g)|
    ensures |st.next| == |st.link| && k > 0
    ensures FetchEnds(st.link, Queue(g), block, Owning(st, k - 1), Owning(st, k), g')
    decreases |Queue(g)|
  {
    hide Inv, Queue, Lists, Handing, FetchEnds, OwnStep;
    InvSizes(st, g);
    var q := Queue(g);
    if |q| == 0 {
      k := EmptyFetch(st, g);
      g' := g;
      FetchNothing(st.link, block, Owning(st, k - 1), Owning(st, k), g);
    } else {
      var j, a, b, f := FetchTurn(st, g, block);
      QueueApart(st, g);
      if st.link[q[0]].Asserted? {
        k, g' := j + 1, f;
        FetchNow(st.link, q, block, a, b, f);
      } else {
        FirstTail(st.link, b.link, q);
        var l;
        l, g' := FetchAlone(b, f, block);
        k := j + 1 + l;
        OwningMore(st, j + 1, l);
        OwningMore(st, j + 1, l - 1);
        FetchOn(st.link, b.link, q, block, Owning(st, k - 1), Owning(st, k), g');
      }
    }
  }

  lemma FetchNothing(link: seq<Link>, block: bool, m: State, n: State, g: View)
    requires Inv(n, g) && n.owner.Resting? && Queue(g) == [] && m.owner.InNext?
    ensures FetchEnds(link, [], block, m, n, g)
  {
    hide Inv, Queue;
  }

  /** One waker is pulled and its link swapped. */
  lemma FetchTurn(st: State, g: View, block: bool) returns (j: nat, a: State, b: State, f: View)
    requires Inv(st, g) && st.owner == InNext(First, ToFetch(block)) && |Queue(g)| > 0
    ensures |st.next| == |st.link| && a == Owning(st, j) && b == Owning(st, j + 1)
    ensures var w := Queue(g)[0];
      && a.owner == Swap(w, block) && IsWaker(st, w) && b.link == st.link[w := Associated]
      && Inv(b, f) && Queue(f) == Queue(g)[1..]
      && b.owner == if st.link[w].Asserted? then Resting else InNext(First, ToFetch(block))
  {
    hide Inv, Queue, Lists, Handing, OwnStep;
    InvSizes(st, g);
    var h;
    j, h := NextAlone(st, g);
    a := Owning(st, j);
    HandedToFetch(Owning(st, j - 1), a, Queue(g)[0], block);
    b := OwnStep(a);
    f := SwapsBack(a, h);
    OwningMore(st, j, 1);
    assert Owning(a, 1) == Owning(b, 0);
  }

  lemma FirstTail(link: seq<Link>, more: seq<Link>, q: seq<int>)
    requires NoDup(q) && |q| > 0 && 0 <= q[0] < |link| && more == link[q[0] := Associated] && !link[q[0]].Asserted?
    ensures FirstAsserted(more, q[1..]) == FirstAsserted(link, q[1..])
    ensures FirstAsserted(link, q) == 1 + FirstAsserted(link, q[1..])
  {
    FirstOnce(q);
    FirstSame(link, more, q[1..]);
  }

  lemma HandedToFetch(st: State, n: State, w: int, block: bool)
    requires Handing(st, n, ToFetch(block), w)
    ensures n.owner == Swap(w, block)
  {
  }

  /** The waker that Fetch holds belongs to nobody's queue. */
  lemma QueueApart(st: State, g: View)
    requires Inv(st, g)
    ensures var q := Queue(g); NoDup(q) && forall w :: w in q ==> 0 <= w < |st.link|
  {
    hide Links, Pushers, Owns, Reading, Sleeps, Callers, Chain, NoDup;
    QueueNoDup(g);
    forall w | w in Queue(g)
      ensures 0 <= w < |st.link|
    {
      InQueue(g, w);
      assert 0 <= w < |g.place|;
      PlacesOf(st, g);
    }
  }

  lemma PlacesOf(st: State, g: View)
    requires Inv(st, g)
    ensures |g.place| == |st.link|
  {
  }

  lemma SwapsBack(st: State, g: View) returns (g': View)
    requires Inv(st, g) && st.owner.Swap?
    ensures var n := OwnStep(st); var w := st.owner.w;
      && Inv(n, g') && Queue(g') == Queue(g) && IsWaker(st, w) && n.link == st.link[w := Associated]
      && n.owner == if st.link[w].Asserted? then Resting else InNext(First, ToFetch(st.owner.block))
  {
    hide Lists, Sleeps, Pushers, NoDup, Queue;
    g' := SwapKeeps(st, g);
  }

  lemma EmptyFetch(st: State, g: View) returns (k: nat)
    requires Inv(st, g) && st.owner == InNext(First, ToFetch(false)) && Queue(g) == []
    ensures |st.next| == |st.link| && k > 0
    ensures var n := Owning(st, k); var m := Owning(st, k - 1); Inv(n, g) && n.owner.Resting? && m.owner.InNext?
  {
    hide Lists;
    InvSizes(st, g);
    SharedHead(st, g);
    NothingQueued(g);
    var a := OwnStep(st);
    WaitKeeps(st, g);
    GivesUp(a, g);
    k := 2;
    assert Owning(st, 2) == Owning(a, 1) == Owning(OwnStep(a), 0);
    assert Owning(st, 1) == Owning(a, 0);
  }

  lemma {:induction false} NothingQueued(g: View)
    requires Queue(g) == []
    ensures g.shared == [] && g.local == []
  {
  }

  /** A call of Fetch, from its beginning. */
  lemma FetchCall(st: State, g: View, block: bool) returns (k: nat, g': View)
    requires Inv(st, g) && st.owner.Resting? && (block ==> FirstAsserted(st.link, Queue(g)) < |Queue(g)|)
    ensures |st.next| == |st.link| && k > 0
    ensures var b := Step(st, BeginFetch(block));
      FetchEnds(st.link, Queue(g), block, Owning(b, k - 1), Owning(b, k), g')
  {
    hide Inv, Queue, FetchEnds;
    InvSizes(st, g);
    BeginFetchKeeps(st, g, block);
    k, g' := FetchAlone(Step(st, BeginFetch(block)), g, block);
  }

  // ----- AddWaker

  /** AddWaker, left alone: a waker that was asserted before is queued at once, and another is
    * associated. */
  lemma AddAlone(st: State, g: View, w: int) returns (k: nat)
    requires Inv(st, g) && st.owner.Resting? && IsWaker(st, w) && w !in st.all
    ensures |st.next| == |st.link|
    ensures var n := Owning(Step(st, BeginAdd(w)), k);
      && n.owner.Resting? && n.all == [w] + st.all && n.threads == st.threads
      && (if st.link[w].Asserted? then n.link == st.link && n.shared == w && n.next == st.next[w := st.shared]
          else n.link == st.link[w := Associated] && n.shared == st.shared)
  {
    hide Lists, Links, Pushers, Owns, Reading, Callers, Sleeps;
    RestsAwake(st, g);
    var a := Step(st, BeginAdd(w));
    var b := OwnStep(a);
    var c := OwnStep(b);
    if st.link[w].Asserted? {
      var d := OwnStep(c);
      var e := OwnStep(d);
      k := 4;
      assert Owning(a, 4) == Owning(b, 3) == Owning(c, 2) == Owning(d, 1) == Owning(e, 0);
    } else {
      k := 2;
      assert Owning(a, 2) == Owning(b, 1) == Owning(c, 0);
    }
  }

  lemma RestsAwake(st: State, g: View)
    requires Inv(st, g) && st.owner.Resting?
    ensures st.waiting.Zero?
  {
    hide Lists, Links, Pushers, Owns, Reading, Callers;
  }

  // ----- Done

  ghost predicate AllIdle(threads: seq<Pc>) {
    forall t :: 0 <= t < |threads| ==> threads[t].Idle?
  }

  function Without(ps: seq<int>, w: int): (r: seq<int>)
    ensures forall v :: v in r <==> v in ps && v != w
  {
    if |ps| == 0 then [] else (if ps[0] == w then [] else [ps[0]]) + Without(ps[1..], w)
  }

  lemma WithoutMembers(ps: seq<int>, w: int, pending: set<int>)
    requires Members(ps) == pending
    ensures Members(Without(ps, w)) == pending - {w}
    ensures Without(ps, w) == [] ==> pending - {w} == {}
  {
    assert Without(ps, w) == [] ==> Members(Without(ps, w)) == {};
  }

  lemma InPending(st: State, g: View, w: int)
    requires Inv(st, g) && st.owner.InNext? && st.owner.purpose.ToFinish? && w in st.owner.purpose.pending
    ensures w in g.mine && 0 <= w < |st.link| && !st.link[w].Associated?
  {
    hide Lists, Reading, Sleeps, Callers, Links, Pushers;
  }

  /** With all threads between calls, what Done waits for is queued. */
  lemma PendingQueued(st: State, g: View, w: int)
    requires Inv(st, g) && AllIdle(st.threads) && st.owner.InNext? && st.owner.purpose.ToFinish?
    requires w in st.owner.purpose.pending
    ensures |Queue(g)| > 0
  {
    hide Lists, Reading, Sleeps, Callers, Queue, Owns, Links, Pushers;
    InPending(st, g, w);
    OnItsWay(st, g, w);
    assert Agent(st.owner, st.threads, -1) == Idle;
  }

  /** The second loop of Done, which waits for the wakers ps. */
  lemma {:induction false} FinishAlone(st: State, g: View, ps: seq<int>) returns (k: nat, g': View)
    requires Inv(st, g) && AllIdle(st.threads) && st.owner.InNext? && st.owner.at.First? && st.owner.purpose.ToFinish?
    requires |ps| > 0 && Members(ps) == st.owner.purpose.pending
    ensures |st.next| == |st.link|
    ensures var n := Owning(st, k); Inv(n, g') && n.owner.Resting? && n.all == []
    decreases st.owner.purpose.pending
  {
    hide Inv, Queue, Handing, OwnStep, AllIdle;
    InvSizes(st, g);
    assert ps[0] in ps;
    PendingQueued(st, g, ps[0]);
    var j, h := NextAlone(st, g);
    var a := Owning(st, j);
    var w := Queue(g)[0];
    HandedToFinish(Owning(st, j - 1), a, st.owner.purpose.pending, w);
    if a.owner.Resting? {
      k, g' := j, h;
      OwningMore(st, j - 1, 1);
      assert Owning(Owning(st, j - 1), 1) == Owning(OwnStep(Owning(st, j - 1)), 0);
      FinishClears(Owning(st, j - 1));
    } else {
      WithoutMembers(ps, w, st.owner.purpose.pending);
      NotTheLast(st.owner.purpose.pending, w);
      var l;
      l, g' := FinishAlone(a, h, Without(ps, w));
      k := j + l;
      OwningMore(st, j, l);
    }
  }

  lemma NotTheLast(pending: set<int>, w: int)
    requires w in pending && pending != {w}
    ensures pending - {w} != {}
  {
    if pending - {w} == {} {
      OnlyMember(pending, w);
    }
  }

  lemma OnlyMember(pending: set<int>, w: int)
    requires w in pending && pending - {w} == {}
    ensures pending == {w}
  {
    assert pending == (pending - {w}) + {w};
  }

  lemma HandedToFinish(st: State, n: State, pending: set<int>, w: int)
    requires Handing(st, n, ToFinish(pending), w)
    ensures w in pending && n.owner == if pending == {w} then Resting else InNext(First, ToFinish(pending - {w}))
    ensures st.owner.InNext? && st.owner.purpose == ToFinish(pending)
  {
  }

  lemma FinishClears(st: State)
    requires |st.next| == |st.link| && st.owner.InNext? && st.owner.purpose.ToFinish? && OwnStep(st).owner.Resting?
    ensures OwnStep(st).all == []
  {
  }

  /** The first loop of Done, and then the second. */
  lemma {:induction false} ScanAlone(st: State, g: View, ps: seq<int>) returns (k: nat, g': View)
    requires Inv(st, g) && AllIdle(st.threads) && st.owner.Scan? && Members(ps) == st.owner.pending
    ensures |st.next| == |st.link|
    ensures var n := Owning(st, k); Inv(n, g') && n.owner.Resting? && n.all == []
    decreases |st.owner.rest|
  {
    hide Inv, Queue, OwnStep, AllIdle;
    InvSizes(st, g);
    ScanTurn(st, g);
    NoMembers();
    var a := OwnStep(st);
    ScanKeeps(st, g);
    if a.owner.Resting? {
      k, g' := 1, g;
      assert Owning(st, 1) == Owning(a, 0);
    } else if a.owner.InNext? {
      var l;
      l, g' := FinishAlone(a, g, ps);
      k := 1 + l;
    } else if a.owner.Scan? {
      var l;
      MembersMore(ps, st.owner.rest[0]);
      l, g' := ScanAlone(a, g, ps + [st.owner.rest[0]]);
      k := 1 + l;
    } else {
      CasTurn(a);
      var h := ScanCasKeeps(a, g);
      var l;
      l, g' := ScanAlone(OwnStep(a), h, ps);
      k := 2 + l;
      assert Owning(st, k) == Owning(a, 1 + l) == Owning(OwnStep(a), l);
    }
  }

  lemma ScanTurn(st: State, g: View)
    requires Inv(st, g) && st.owner.Scan?
    ensures var a := OwnStep(st); var rest := st.owner.rest;
      && a.threads == st.threads
      && (if |rest| == 0 then
            (a.owner.Resting? && a.all == [])
            || (a.owner == InNext(First, ToFinish(st.owner.pending)) && st.owner.pending != {})
          else if a.owner.Scan? then |a.owner.rest| < |rest| && a.owner.pending == st.owner.pending + {rest[0]}
          else
            && a.owner.ScanCas? && |a.owner.rest| < |rest| && a.owner.pending == st.owner.pending
            && IsWaker(a, a.owner.w) && a.link[a.owner.w].Associated?)
  {
    hide Lists, Links, Pushers, Reading, Sleeps, Callers;
    if |st.owner.rest| > 0 {
      assert st.owner.rest[0] in st.owner.rest;
    }
  }

  lemma MembersMore(ps: seq<int>, w: int)
    ensures Members(ps + [w]) == Members(ps) + {w}
  {
  }

  lemma NoMembers()
    ensures Members([]) == {}
  {
  }

  lemma CasTurn(st: State)
    requires |st.next| == |st.link| && st.owner.ScanCas? && IsWaker(st, st.owner.w) && st.link[st.owner.w].Associated?
    ensures var n := OwnStep(st); n.owner == Scan(st.owner.rest, st.owner.pending) && n.threads == st.threads
  {
  }

  /** Done, with every thread between calls, comes back, and the sleeper has no wakers. */
  lemma DoneAlone(st: State, g: View) returns (k: nat, g': View)
    requires Inv(st, g) && AllIdle(st.threads) && st.owner.Resting?
    ensures |st.next| == |st.link|
    ensures var n := Owning(Step(st, BeginDone), k); Inv(n, g') && n.owner.Resting? && n.all == []
  {
    hide Inv, AllIdle;
    InvSizes(st, g);
    BeginDoneKeeps(st, g);
    NoMembers();
    k, g' := ScanAlone(Step(st, BeginDone), g, []);
  }
}
