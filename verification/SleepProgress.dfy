/** What Assert, Clear and Fetch do, where Sleep says what every interleaving keeps: an asserted
  * waker stays so until it is cleared or returned, and is on its way to the owner; and each call,
  * left alone, does its work.
  */
module SleepProgress {
  import opened Sleep

  // ----- one step

  /** Where a thread is inside Assert(w), before its effect. */
  predicate Asserting(pc: Pc, w: int) {
    pc == AssertLoad(w) || pc == AssertSwap(w)
  }

  /** Fetch returned waker w in this step. */
  predicate Returns(st: State, n: State, w: int) {
    st.owner.Swap? && st.owner.w == w && n.owner.Resting?
  }

  /** A call of Clear(w) took the assertion back in this step. */
  predicate Clears(st: State, e: Event, n: State, w: int) {
    && e.Thread? && e.t < |st.threads| && st.threads[e.t] == ClearCas(w)
    && IsWaker(st, w) && w < |n.link| && st.link[w].Asserted? && !n.link[w].Asserted?
  }

  /** Assert's swap asserts; Clear's takes an assertion back; nothing else touches the link. */
  function LinkAfter(pc: Pc, w: int, was: Link): Link {
    if pc == AssertSwap(w) then Asserted else if pc == ClearCas(w) && was.Asserted? then Nil else was
  }

  /** An assertion that is already there is left; the one that replaces an association is pushed. */
  function AssertAfter(pc: Pc, w: int, was: Link): Pc {
    if was.Asserted? then Idle
    else if pc == AssertLoad(w) then AssertSwap(w)
    else if was.Associated? then LoadHead(w) else Idle
  }

  lemma WorkLinks(st: State, t: nat)
    requires |st.next| == |st.link| && t < |st.threads|
    ensures var n := Step(st, Thread(t)); var pc := st.threads[t];
      && |n.link| == |st.link| && |n.threads| == |st.threads|
      && (forall u :: 0 <= u < |st.threads| && u != t ==> n.threads[u] == st.threads[u])
      && (forall w :: 0 <= w < |st.link| ==> n.link[w] == LinkAfter(pc, w, st.link[w]))
      && (forall w :: IsWaker(st, w) && Asserting(pc, w) ==> n.threads[t] == AssertAfter(pc, w, st.link[w]))
      && (forall w :: !Returns(st, n, w))
  {
  }

  /** What the owner does to the links: Fetch associates what it pulled, Add what is not asserted,
    * Done takes associations back. */
  lemma OwnLinks(st: State, g: View)
    requires Inv(st, g)
    ensures var n := OwnStep(st);
      && |n.link| == |st.link| && n.threads == st.threads
      && (forall w :: 0 <= w < |st.link| && st.link[w].Asserted? && !n.link[w].Asserted? ==> Returns(st, n, w))
      && (forall w :: 0 <= w < |st.link| && n.link[w].Asserted? ==> st.link[w].Asserted?)
      && (forall w :: Returns(st, n, w) ==> IsWaker(st, w) && st.link[w].Asserted? && n.link[w].Associated?)
  {
    hide Lists, Links, Pushers, Reading, Sleeps, Callers;
  }

  // ----- what is owed

  predicate Begins(st: State, e: Event) {
    e.BeginAssert? && e.t < |st.threads| && st.threads[e.t].Idle? && IsWaker(st, e.w)
  }

  /** The wakers for which Assert was called and that were neither cleared nor returned since. */
  ghost function OwedNext(st: State, e: Event, n: State, owed: set<int>): set<int> {
    if Begins(st, e) then owed + {e.w} else set w | w in owed && !Clears(st, e, n, w) && !Returns(st, n, w)
  }

  ghost function Owed(st: State, es: seq<Event>, owed: set<int>): set<int>
    requires |st.next| == |st.link|
    decreases |es|
  {
    if |es| == 0 then owed else Owed(Step(st, es[0]), es[1..], OwedNext(st, es[0], Step(st, es[0]), owed))
  }

  /** Each of them is asserted, or is about to be. */
  ghost predicate Kept(st: State, owed: set<int>) {
    forall w :: w in owed ==>
      IsWaker(st, w) && (st.link[w].Asserted? || exists t :: 0 <= t < |st.threads| && Asserting(st.threads[t], w))
  }

  lemma ThreadKept(st: State, t: nat, owed: set<int>)
    requires |st.next| == |st.link| && t < |st.threads| && Kept(st, owed)
    ensures var n := Step(st, Thread(t)); Kept(n, OwedNext(st, Thread(t), n, owed))
  {
    hide Step;
    WorkLinks(st, t);
    var n := Step(st, Thread(t));
    forall w | w in OwedNext(st, Thread(t), n, owed)
      ensures IsWaker(n, w) && (n.link[w].Asserted? || exists u :: 0 <= u < |n.threads| && Asserting(n.threads[u], w))
    {
      if !n.link[w].Asserted? && !st.link[w].Asserted? {
        var u :| 0 <= u < |st.threads| && Asserting(st.threads[u], w);
        assert Asserting(n.threads[u], w);
      }
    }
  }

  lemma OwnKept(st: State, g: View, owed: set<int>)
    requires Inv(st, g) && Kept(st, owed)
    ensures var n := Step(st, Own); Kept(n, OwedNext(st, Own, n, owed))
  {
    hide Inv, OwnStep;
    InvSizes(st, g);
    OwnLinks(st, g);
    var n := Step(st, Own);
    forall w | w in OwedNext(st, Own, n, owed)
      ensures IsWaker(n, w) && (n.link[w].Asserted? || exists u :: 0 <= u < |n.threads| && Asserting(n.threads[u], w))
    {
    }
  }

  lemma StepKept(st: State, g: View, e: Event, owed: set<int>)
    requires Inv(st, g) && Kept(st, owed)
    ensures Kept(Step(st, e), OwedNext(st, e, Step(st, e), owed))
  {
    hide Inv, Work, OwnStep;
    InvSizes(st, g);
    match e {
      case Thread(t) =>
        if t < |st.threads| {
          ThreadKept(st, t, owed);
        }
      case Own => OwnKept(st, g, owed);
      case BeginAssert(t, w) =>
        if Begins(st, e) {
          var n := Step(st, e);
          assert Asserting(n.threads[t], w);
          forall v | v in owed && !st.link[v].Asserted?
            ensures exists u :: 0 <= u < |n.threads| && Asserting(n.threads[u], v)
          {
            var u :| 0 <= u < |st.threads| && Asserting(st.threads[u], v);
            assert Asserting(n.threads[u], v);
          }
        }
      case BeginClear(t, w) =>
        var n := Step(st, e);
        forall v | v in owed && !st.link[v].Asserted?
          ensures exists u :: 0 <= u < |n.threads| && Asserting(n.threads[u], v)
        {
          var u :| 0 <= u < |st.threads| && Asserting(st.threads[u], v);
          assert Asserting(n.threads[u], v);
        }
      case _ =>
    }
  }

  lemma {:induction false} RunKept(st: State, g: View, es: seq<Event>, owed: set<int>) returns (g': View)
    requires Inv(st, g) && Kept(st, owed)
    ensures Inv(Run(st, es), g') && Kept(Run(st, es), Owed(st, es, owed))
    decreases |es|
  {
    hide Inv, Step, Kept, OwedNext;
    InvSizes(st, g);
    g' := g;
    if |es| > 0 {
      var h := StepKeeps(st, g, es[0]);
      StepKept(st, g, es[0], owed);
      InvSizes(Step(st, es[0]), h);
      g' := RunKept(Step(st, es[0]), h, es[1..], OwedNext(st, es[0], Step(st, es[0]), owed));
    }
  }

  /** No Assert is lost, in any run of any number of threads: when all threads are between calls and
    * the owner is at rest or parked, every waker of the sleeper for which Assert was called, and
    * that was neither cleared nor returned by Fetch since, is queued; and then the owner is not
    * parked. */
  lemma NoAssertLost(st: State, es: seq<Event>) returns (g: View)
    requires Fresh(st)
    ensures var n := Run(st, es); var owed := Owed(st, es, {});
      && Inv(n, g)
      && ((forall t :: 0 <= t < |n.threads| ==> n.threads[t].Idle?) && (n.owner.Resting? || AtPark(n.owner)) ==>
           forall w :: w in owed && w in g.mine ==>
             IsWaker(n, w) && n.link[w].Asserted? && w in Queue(g) && n.owner.Resting?)
  {
    hide Inv, Fresh, Run, Queue, Owed;
    var g0 := FreshKeeps(st);
    InvSizes(st, g0);
    g := RunKept(st, g0, es, {});
    var n, owed := Run(st, es), Owed(st, es, {});
    if (forall t :: 0 <= t < |n.threads| ==> n.threads[t].Idle?) && (n.owner.Resting? || AtPark(n.owner)) {
      forall w | w in owed && w in g.mine
        ensures IsWaker(n, w) && n.link[w].Asserted? && w in Queue(g) && n.owner.Resting?
      {
        OnItsWay(n, g, w);
        if AtPark(n.owner) {
          SleepsForAReason(n, g, w);
        }
      }
    }
  }

  // ----- what is not asserted is not returned

  predicate NoAssert(es: seq<Event>, w: int) {
    forall i :: 0 <= i < |es| ==> !(es[i].BeginAssert? && es[i].w == w)
  }

  /** No thread is inside Assert(w), and w is not asserted. */
  ghost predicate Unasserted(st: State, w: int) {
    && (IsWaker(st, w) ==> !st.link[w].Asserted?)
    && (forall t :: 0 <= t < |st.threads| ==> !Asserting(st.threads[t], w))
  }

  ghost predicate EverReturned(st: State, es: seq<Event>, w: int)
    requires |st.next| == |st.link|
    decreases |es|
  {
    |es| > 0 && (Returns(st, Step(st, es[0]), w) || EverReturned(Step(st, es[0]), es[1..], w))
  }

  lemma StepUnasserted(st: State, g: View, e: Event, w: int)
    requires Inv(st, g) && Unasserted(st, w) && !(e.BeginAssert? && e.w == w)
    ensures Unasserted(Step(st, e), w) && !Returns(st, Step(st, e), w)
  {
    hide Inv, Work, OwnStep;
    InvSizes(st, g);
    OwnLinks(st, g);
    if e.Thread? && e.t < |st.threads| {
      WorkLinks(st, e.t);
      WorkAsserting(st, e.t, w);
    }
  }

  lemma WorkAsserting(st: State, t: nat, w: int)
    requires |st.next| == |st.link| && t < |st.threads| && !Asserting(st.threads[t], w)
    ensures !Asserting(Step(st, Thread(t)).threads[t], w)
  {
  }

  /** Once a Clear is done and nobody is inside Assert, Fetch does not return the waker until Assert
    * is called again, though it may still be queued. */
  lemma {:induction false} ClearedIsNotReturned(st: State, g: View, es: seq<Event>, w: int)
    requires Inv(st, g) && Unasserted(st, w) && NoAssert(es, w)
    ensures |st.next| == |st.link| && !EverReturned(st, es, w)
    decreases |es|
  {
    hide Inv, Step, Unasserted;
    InvSizes(st, g);
    if |es| > 0 {
      StepUnasserted(st, g, es[0], w);
      var h := StepKeeps(st, g, es[0]);
      ClearedIsNotReturned(Step(st, es[0]), h, es[1..], w);
    }
  }

  /** When a call of Clear(w) comes back, w is not asserted. */
  lemma ClearClears(st: State, t: nat, w: int)
    requires |st.next| == |st.link| && t < |st.threads| && IsWaker(st, w)
    requires st.threads[t] == ClearLoad(w) || st.threads[t] == ClearCas(w)
    ensures var n := Step(st, Thread(t));
      if n.threads[t].Idle? then !n.link[w].Asserted? else n.threads[t] == ClearCas(w) && n.link == st.link
  {
  }
}
