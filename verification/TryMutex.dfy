/** The mutex with TryLock, pkg/tmutex/tmutex.go, as the atomic steps of any number of threads.
  * `v` is an int32; `full` says that the channel of capacity one holds its token.
  */
module TryMutex {
  const MIN: int := -0x8000_0000
  const MAX: int := 0x7fff_ffff

  /** Where a thread is; Receive is the wait on the channel, Holds is between Lock and Unlock. */
  datatype Pc = Outside | Decrement | Load | Swap | Receive | TryLoad | TryCas | Holds | Release | Send

  datatype State = State(v: int, full: bool, threads: seq<Pc>)

  datatype Event = BeginLock(t: nat) | BeginTryLock(t: nat) | BeginUnlock(t: nat) | Go(t: nat)

  function Sub1(v: int): int {
    if v == MIN then MAX else v - 1
  }

  function Init(n: nat): State {
    State(1, false, seq(n, _ => Outside))
  }

  function At(st: State, t: nat, v: int, full: bool, pc: Pc): State
    requires t < |st.threads|
  {
    State(v, full, st.threads[t := pc])
  }

  function Work(st: State, t: nat): State
    requires t < |st.threads|
  {
    match st.threads[t]
    // Lock
    case Decrement => At(st, t, Sub1(st.v), st.full, if Sub1(st.v) == 0 then Holds else Load)
    case Load => At(st, t, st.v, st.full, if st.v >= 0 then Swap else Receive)
    case Swap => At(st, t, -1, st.full, if st.v == 1 then Holds else Receive)
    case Receive => if st.full then At(st, t, st.v, false, Load) else st
    // TryLock
    case TryLoad => At(st, t, st.v, st.full, if st.v <= 0 then Outside else TryCas)
    case TryCas => if st.v == 1 then At(st, t, 0, st.full, Holds) else At(st, t, st.v, st.full, Outside)
    // Unlock
    case Release => At(st, t, 1, st.full, if st.v == 0 then Outside else Send)
    case Send => At(st, t, st.v, true, Outside)
    case _ => st
  }

  function Step(st: State, e: Event): State {
    match e
    case BeginLock(t) => if t < |st.threads| && st.threads[t].Outside? then At(st, t, st.v, st.full, Decrement) else st
    case BeginTryLock(t) => if t < |st.threads| && st.threads[t].Outside? then At(st, t, st.v, st.full, TryLoad) else st
    case BeginUnlock(t) => if t < |st.threads| && st.threads[t].Holds? then At(st, t, st.v, st.full, Release) else st
    case Go(t) => if t < |st.threads| then Work(st, t) else st
  }

  function Run(st: State, es: seq<Event>): State
    decreases |es|
  {
    if |es| == 0 then st else Run(Step(st, es[0]), es[1..])
  }

  // ----- the invariant

  predicate Owner(pc: Pc) {
    pc.Holds? || pc.Release?
  }

  predicate Waiter(pc: Pc) {
    pc.Load? || pc.Swap? || pc.Receive?
  }

  predicate AboutToRecheck(pc: Pc) {
    pc.Load? || pc.Swap? || pc.Send?
  }

  function Waiters(threads: seq<Pc>): (n: nat)
    ensures n <= |threads|
  {
    if |threads| == 0 then 0 else Waiters(threads[1..]) + if Waiter(threads[0]) then 1 else 0
  }

  lemma {:induction false} WaitersUpdate(threads: seq<Pc>, t: nat, pc: Pc)
    requires t < |threads|
    ensures Waiters(threads[t := pc]) ==
      Waiters(threads) - (if Waiter(threads[t]) then 1 else 0) + if Waiter(pc) then 1 else 0
    decreases |threads|
  {
    if t == 0 {
      assert threads[0 := pc][1..] == threads[1..];
    } else {
      assert threads[t := pc][1..] == threads[1..][t - 1 := pc];
      WaitersUpdate(threads[1..], t - 1, pc);
    }
  }

  /** At most one thread holds the mutex, and v is 1 exactly when none does. */
  ghost predicate Exclusive(st: State) {
    && (forall t, u :: 0 <= t < u < |st.threads| && Owner(st.threads[t]) ==> !Owner(st.threads[u]))
    && (st.v != 1 ==> exists t :: 0 <= t < |st.threads| && Owner(st.threads[t]))
    && (st.v == 1 ==> forall t :: 0 <= t < |st.threads| ==> !Owner(st.threads[t]))
  }

  /** A waiter may sleep on the channel while the mutex looks free only if somebody will look
    * again or the token is there. */
  ghost predicate Awake(st: State) {
    st.v >= 0 && (exists t :: 0 <= t < |st.threads| && st.threads[t].Receive?) ==>
      st.full || exists u :: 0 <= u < |st.threads| && AboutToRecheck(st.threads[u])
  }

  ghost predicate Inv(st: State) {
    && |st.threads| < MAX
    && -1 <= st.v + Waiters(st.threads) && st.v <= 1
    && Exclusive(st)
    && Awake(st)
  }

  lemma StepKeeps(st: State, e: Event)
    requires Inv(st)
    ensures Inv(Step(st, e)) && |Step(st, e).threads| == |st.threads|
  {
    match e {
      case Go(t) =>
        if t < |st.threads| {
          WorkKeeps(st, t);
        }
      case BeginLock(t) =>
        if t < |st.threads| && st.threads[t].Outside? {
          Moves(st, t, Decrement);
        }
      case BeginTryLock(t) =>
        if t < |st.threads| && st.threads[t].Outside? {
          Moves(st, t, TryLoad);
        }
      case BeginUnlock(t) =>
        if t < |st.threads| && st.threads[t].Holds? {
          Moves(st, t, Release);
        }
    }
  }

  /** A thread moves on without touching the shared state. */
  lemma Moves(st: State, t: nat, pc: Pc)
    requires Inv(st) && t < |st.threads| && Owner(pc) == Owner(st.threads[t]) && Waiter(pc) == Waiter(st.threads[t])
    requires AboutToRecheck(st.threads[t]) ==> AboutToRecheck(pc)
    requires pc.Receive? ==> st.threads[t].Receive?
    ensures Inv(At(st, t, st.v, st.full, pc))
  {
    WaitersUpdate(st.threads, t, pc);
    var n := At(st, t, st.v, st.full, pc);
    assert forall u :: 0 <= u < |st.threads| && u != t ==> n.threads[u] == st.threads[u];
    assert n.threads[t] == pc;
  }

  lemma WorkKeeps(st: State, t: nat)
    requires Inv(st) && t < |st.threads|
    ensures Inv(Work(st, t)) && |Work(st, t).threads| == |st.threads|
  {
    hide Exclusive, Awake;
    var n := Work(st, t);
    WaitersUpdate(st.threads, t, n.threads[t]);
    assert n.threads == st.threads[t := n.threads[t]];
    OwnerV(st, t);
    WorkExclusive(st, t);
    WorkAwake(st, t);
  }

  lemma OwnerV(st: State, t: nat)
    requires Exclusive(st) && t < |st.threads|
    ensures Owner(st.threads[t]) ==> st.v != 1
  {
  }

  lemma WorkExclusive(st: State, t: nat)
    requires Exclusive(st) && t < |st.threads| && MIN < st.v <= 1
    ensures Exclusive(Work(st, t))
  {
    var n := Work(st, t);
    assert forall u :: 0 <= u < |st.threads| && u != t ==> n.threads[u] == st.threads[u];
    if Owner(n.threads[t]) {
      assert n.v != 1;
    } else if st.v != 1 && n.v != 1 {
      var o :| 0 <= o < |st.threads| && Owner(st.threads[o]);
      assert o == t || Owner(n.threads[o]);
    }
  }

  lemma WorkAwake(st: State, t: nat)
    requires Awake(st) && Exclusive(st) && t < |st.threads| && MIN < st.v <= 1
    ensures Awake(Work(st, t))
  {
    var n := Work(st, t);
    assert forall u :: 0 <= u < |st.threads| && u != t ==> n.threads[u] == st.threads[u];
    assert n.threads[t] == n.threads[t];
  }

  lemma InitKeeps(n: nat)
    requires n < MAX
    ensures Inv(Init(n))
  {
    NobodyWaits(Init(n).threads);
  }

  lemma {:induction false} NobodyWaits(threads: seq<Pc>)
    requires forall t :: 0 <= t < |threads| ==> threads[t].Outside?
    ensures Waiters(threads) == 0
    decreases |threads|
  {
    if |threads| > 0 {
      NobodyWaits(threads[1..]);
    }
  }

  lemma {:induction false} RunKeeps(st: State, es: seq<Event>)
    requires Inv(st)
    ensures Inv(Run(st, es)) && |Run(st, es).threads| == |st.threads|
    decreases |es|
  {
    hide Inv, Step;
    if |es| > 0 {
      StepKeeps(st, es[0]);
      RunKeeps(Step(st, es[0]), es[1..]);
    }
  }

  /** In every run of fewer than 2^31 - 1 threads: mutual exclusion, v tells whether the mutex is
    * free, and v never wraps. */
  lemma MutualExclusion(n: nat, es: seq<Event>, t: nat, u: nat)
    requires n < MAX && t < n && u < n
    ensures var st := Run(Init(n), es);
      && |st.threads| == n
      && (Owner(st.threads[t]) && Owner(st.threads[u]) ==> t == u)
      && (st.v == 1 <==> forall i :: 0 <= i < n ==> !Owner(st.threads[i]))
      && MIN < st.v
  {
    hide Run, Step;
    InitKeeps(n);
    RunKeeps(Init(n), es);
  }

  /** No waiter is left behind: when every thread is outside or asleep on an empty channel, in
    * particular when nobody holds the mutex, nobody is asleep. */
  lemma NobodyStuck(n: nat, es: seq<Event>, t: nat)
    requires n < MAX && t < n
    requires var st := Run(Init(n), es);
      && |st.threads| == n && !st.full && forall u :: 0 <= u < n ==> st.threads[u].Outside? || st.threads[u].Receive?
    ensures Run(Init(n), es).threads[t].Outside?
  {
    hide Run, Step;
    InitKeeps(n);
    RunKeeps(Init(n), es);
    var st := Run(Init(n), es);
    assert st.v == 1;
  }

  // ----- what each call does when nobody interferes

  /** Thread t alone takes its next k steps. */
  function Alone(st: State, t: nat, k: nat): State
    decreases k
  {
    if k == 0 then st else Alone(Step(st, Go(t)), t, k - 1)
  }

  predicate Free(st: State) {
    forall t :: 0 <= t < |st.threads| ==> !Owner(st.threads[t])
  }

  /** TryLock takes the mutex exactly when it is free, and otherwise leaves everything as it was. */
  lemma TryLockAlone(st: State, t: nat) returns (k: nat)
    requires Inv(st) && t < |st.threads| && st.threads[t].Outside?
    ensures var n := Alone(Step(st, BeginTryLock(t)), t, k);
      if Free(st) then n == st.(v := 0, threads := st.threads[t := Holds]) else n == st
  {
    var a := Step(st, BeginTryLock(t));
    var b := Step(a, Go(t));
    if st.v <= 0 {
      k := 1;
      assert Alone(a, t, 1) == Alone(b, t, 0);
      assert b.threads == st.threads;
    } else {
      var c := Step(b, Go(t));
      k := 2;
      assert Alone(a, t, 2) == Alone(b, t, 1) == Alone(c, t, 0);
      assert c.threads == st.threads[t := Holds];
    }
  }

  /** Lock takes a free mutex in one step. */
  lemma LockAlone(st: State, t: nat)
    requires Inv(st) && t < |st.threads| && st.threads[t].Outside? && Free(st)
    ensures Alone(Step(st, BeginLock(t)), t, 1) == st.(v := 0, threads := st.threads[t := Holds])
  {
    var a := Step(st, BeginLock(t));
    var b := Step(a, Go(t));
    assert Alone(a, t, 1) == Alone(b, t, 0);
    assert b.threads == st.threads[t := Holds];
  }

  /** Unlock frees the mutex, and leaves the token if anyone may be waiting. */
  lemma UnlockAlone(st: State, t: nat) returns (k: nat)
    requires Inv(st) && t < |st.threads| && st.threads[t].Holds?
    ensures Alone(Step(st, BeginUnlock(t)), t, k) ==
      State(1, st.full || st.v < 0, st.threads[t := Outside])
  {
    var a := Step(st, BeginUnlock(t));
    var b := Step(a, Go(t));
    if st.v == 0 {
      k := 1;
      assert Alone(a, t, 1) == Alone(b, t, 0);
      assert b.threads == st.threads[t := Outside];
    } else {
      var c := Step(b, Go(t));
      k := 2;
      assert Alone(a, t, 2) == Alone(b, t, 1) == Alone(c, t, 0);
      assert c.threads == st.threads[t := Outside];
    }
  }

  /** A waiter asleep on the channel gets the mutex after an Unlock that found one waiting. */
  lemma HandsOver(st: State, t: nat, u: nat) returns (k: nat)
    requires Inv(st) && t < |st.threads| && st.threads[t].Holds? && st.v < 0
    requires u < |st.threads| && st.threads[u].Receive?
    ensures var n := Alone(Step(st, BeginUnlock(t)), t, k);
      Alone(n, u, 3) == State(-1, false, st.threads[t := Outside][u := Holds])
  {
    k := UnlockAlone(st, t);
    var n := Alone(Step(st, BeginUnlock(t)), t, k);
    var a := Step(n, Go(u));
    var b := Step(a, Go(u));
    var c := Step(b, Go(u));
    assert Alone(n, u, 3) == Alone(a, u, 2) == Alone(b, u, 1) == Alone(c, u, 0);
    assert c.threads == st.threads[t := Outside][u := Holds];
  }
}
