/** The lock-free sleeper and its wakers: pkg/sleep/sleep_unsafe.go and commit_noasm.go.
  *
  * One goroutine owns the sleeper and calls AddWaker, Fetch and Done; any number of others
  * call Assert and Clear. Every atomic operation is one step, together with the plain code
  * up to the next one, which touches nothing that others look at; the steps of all goroutines
  * interleave freely. Wakers are numbered, and -1 is the nil pointer.
  */
module Sleep {
  /** w.s: nil, &assertedSleeper, or the sleeper. */
  datatype Link = Nil | Asserted | Associated

  /** s.waitingG: 0, preparingG, or the parked goroutine. */
  datatype Waiting = Zero | Preparing | Sleeping

  /** Where a goroutine is. The last five are enqueueAssertedWaker. */
  datatype Pc =
    | Idle
    | AssertLoad(w: int) | AssertSwap(w: int)
    | ClearLoad(w: int) | ClearCas(w: int)
    | LoadHead(w: int) | PushCas(w: int, v: int)
    | LoadG | TakeG(g: Waiting) | Ready

  /** Where the owner is inside nextWaker. */
  datatype Next =
    | First                     // is the local list empty?
    | LoadShared | StorePreparing | CheckShared | StoreZero
    | CommitLoad | CommitCas | Parked
    | Pull | Reverse(v: int)

  datatype Purpose = ToFetch(block: bool) | ToFinish(pending: set<int>)

  datatype Owner =
    | Resting
    | AddLoad(w: int) | AddCas(w: int, p: Link) | AddEnqueue(pc: Pc)
    | InNext(at: Next, purpose: Purpose)
    | Swap(w: int, block: bool) // Fetch holds the waker it pulled
    | Scan(rest: seq<int>, pending: set<int>) | ScanCas(w: int, rest: seq<int>, pending: set<int>)

  datatype State = State(
    link: seq<Link>, next: seq<int>,
    shared: int, local: int,    // heads of the two lists
    waiting: Waiting,
    all: seq<int>,              // allWakers
    owner: Owner, threads: seq<Pc>,
    parks: nat, readies: nat,   // sleeps committed, and calls of goready
    fault: bool)                // goready of a goroutine that is not parked, or a nil dereference

  datatype Event =
    | BeginAssert(t: nat, w: int) | BeginClear(t: nat, w: int) | Thread(t: nat)
    | BeginAdd(w: int) | BeginFetch(block: bool) | BeginDone | Own

  predicate IsWaker(st: State, w: int) {
    0 <= w < |st.link|
  }

  // ----- the steps

  /** A step of enqueueAssertedWaker. */
  function Enqueue(st: State, pc: Pc): (r: (State, Pc))
    requires |st.next| == |st.link|
    ensures |r.0.next| == |r.0.link| && |r.0.threads| == |st.threads|
  {
    match pc
    case LoadHead(w) => (st, PushCas(w, st.shared))
    case PushCas(w, v) =>
      if !IsWaker(st, w) then (st, Idle)
      else
        var n := st.(next := st.next[w := v]);
        if st.shared == v then (n.(shared := w), LoadG) else (n, LoadHead(w))
    case LoadG => (st, if st.waiting.Zero? then Idle else TakeG(st.waiting))
    case TakeG(g) =>
      if st.waiting == g then (st.(waiting := Zero), if g.Sleeping? then Ready else LoadG) else (st, LoadG)
    case Ready =>
      if st.owner.InNext? && st.owner.at.Parked?
      then (st.(owner := st.owner.(at := LoadShared), readies := st.readies + 1), LoadG)
      else (st.(fault := true), LoadG)
    case _ => (st, Idle)
  }

  /** A step of Assert, Clear or what Assert calls. */
  function Work(st: State, pc: Pc): (r: (State, Pc))
    requires |st.next| == |st.link|
    ensures |r.0.next| == |r.0.link| && |r.0.threads| == |st.threads|
  {
    match pc
    case Idle => (st, Idle)
    case AssertLoad(w) =>
      if !IsWaker(st, w) || st.link[w].Asserted? then (st, Idle) else (st, AssertSwap(w))
    case AssertSwap(w) =>
      if !IsWaker(st, w) then (st, Idle)
      else (st.(link := st.link[w := Asserted]), if st.link[w].Associated? then LoadHead(w) else Idle)
    case ClearLoad(w) =>
      if !IsWaker(st, w) || !st.link[w].Asserted? then (st, Idle) else (st, ClearCas(w))
    case ClearCas(w) =>
      if !IsWaker(st, w) || !st.link[w].Asserted? then (st, Idle) else (st.(link := st.link[w := Nil]), Idle)
    case _ => Enqueue(st, pc)
  }

  /** nextWaker has a waker to hand out. */
  function Pulled(st: State, w: int, purpose: Purpose): State {
    match purpose
    case ToFetch(block) => st.(owner := Swap(w, block))
    case ToFinish(pending) => Finish(st, pending - {w})
  }

  /** The second loop of Done. */
  function Finish(st: State, pending: set<int>): State {
    if pending == {} then st.(all := [], owner := Resting) else st.(owner := InNext(First, ToFinish(pending)))
  }

  function PopLocal(st: State, purpose: Purpose): (r: State)
    requires |st.next| == |st.link|
    ensures |r.next| == |r.link|
  {
    if IsWaker(st, st.local) then Pulled(st.(local := st.next[st.local]), st.local, purpose) else st.(fault := true)
  }

  function NextStep(st: State, at: Next, purpose: Purpose): (r: State)
    requires |st.next| == |st.link|
    ensures |r.next| == |r.link|
  {
    var go := (a: Next) => InNext(a, purpose);
    match at
    case First =>
      if st.local != -1 then PopLocal(st, purpose) else st.(owner := go(LoadShared))
    case LoadShared =>
      if st.shared != -1 then st.(owner := go(Pull))
      else if purpose.ToFetch? && !purpose.block then st.(owner := Resting)
      else st.(owner := go(StorePreparing))
    case StorePreparing => st.(waiting := Preparing, owner := go(CheckShared))
    case CheckShared => st.(owner := go(if st.shared != -1 then StoreZero else CommitLoad))
    case StoreZero => st.(waiting := Zero, owner := go(Pull))
    // gopark calls commitSleep
    case CommitLoad => st.(owner := go(if st.waiting.Zero? then LoadShared else CommitCas))
    case CommitCas =>
      if st.waiting.Preparing? then st.(waiting := Sleeping, owner := go(Parked), parks := st.parks + 1)
      else st.(owner := go(CommitLoad))
    case Parked => st
    case Pull => st.(shared := -1, owner := go(Reverse(st.shared)))
    case Reverse(v) =>
      if IsWaker(st, v) then st.(next := st.next[v := st.local], local := v, owner := go(Reverse(st.next[v])))
      else PopLocal(st, purpose)
  }

  function OwnStep(st: State): (r: State)
    requires |st.next| == |st.link|
    ensures |r.next| == |r.link|
  {
    match st.owner
    case Resting => st
    case AddLoad(w) =>
      if !IsWaker(st, w) then st
      else if st.link[w].Asserted? then st.(owner := AddEnqueue(LoadHead(w)))
      else st.(owner := AddCas(w, st.link[w]))
    case AddCas(w, p) =>
      if !IsWaker(st, w) then st
      else if st.link[w] == p then st.(link := st.link[w := Associated], owner := Resting)
      else st.(owner := AddLoad(w))
    case AddEnqueue(pc) =>
      var (n, p) := Enqueue(st, pc);
      n.(owner := if p.Idle? then Resting else AddEnqueue(p))
    case InNext(at, purpose) => NextStep(st, at, purpose)
    case Swap(w, block) =>
      if !IsWaker(st, w) then st
      else st.(link := st.link[w := Associated],
               // a waker cleared in the meantime is passed over
               owner := if st.link[w].Asserted? then Resting else InNext(First, ToFetch(block)))
    case Scan(rest, pending) =>
      if |rest| == 0 then Finish(st, pending)
      else if !IsWaker(st, rest[0]) then st
      else if st.link[rest[0]].Associated? then st.(owner := ScanCas(rest[0], rest[1..], pending))
      else st.(owner := Scan(rest[1..], pending + {rest[0]}))
    case ScanCas(w, rest, pending) =>
      if !IsWaker(st, w) then st
      else if st.link[w].Associated? then st.(link := st.link[w := Nil], owner := Scan(rest, pending))
      else st.(owner := Scan([w] + rest, pending))
  }

  function Step(st: State, e: Event): (r: State)
    requires |st.next| == |st.link|
    ensures |r.next| == |r.link|
  {
    match e
    case BeginAssert(t, w) =>
      if t < |st.threads| && st.threads[t].Idle? && IsWaker(st, w)
        then st.(threads := st.threads[t := AssertLoad(w)]) else st
    case BeginClear(t, w) =>
      if t < |st.threads| && st.threads[t].Idle? && IsWaker(st, w)
        then st.(threads := st.threads[t := ClearLoad(w)]) else st
    case Thread(t) =>
      if t < |st.threads| then
        var (n, pc) := Work(st, st.threads[t]);
        n.(threads := n.threads[t := pc])
      else st
    // a waker is added to a sleeper only once
    case BeginAdd(w) =>
      if st.owner.Resting? && IsWaker(st, w) && w !in st.all then st.(all := [w] + st.all, owner := AddLoad(w)) else st
    case BeginFetch(block) => if st.owner.Resting? then st.(owner := InNext(First, ToFetch(block))) else st
    case BeginDone => if st.owner.Resting? then st.(owner := Scan(st.all, {})) else st
    case Own => OwnStep(st)
  }

  // ----- the invariant

  /** Where a waker is. */
  datatype Place = Out | Pushing(t: int) | InShared | InPulled | InLocal | Held

  /** What the pointers mean: the lists, where every waker is, and which are the sleeper's. */
  datatype View = View(shared: seq<int>, pulled: seq<int>, local: seq<int>, place: seq<Place>, mine: set<int>)

  predicate Chain(next: seq<int>, head: int, list: seq<int>)
    decreases |list|
  {
    if |list| == 0 then head == -1
    else 0 <= list[0] < |next| && head == list[0] && Chain(next, next[head], list[1..])
  }

  predicate NoDup(list: seq<int>) {
    forall i, j :: 0 <= i < j < |list| ==> list[i] != list[j]
  }

  /** The list holds exactly the wakers at that place. */
  ghost predicate Holds(list: seq<int>, place: seq<Place>, p: Place) {
    && NoDup(list)
    && (forall w :: w in list ==> 0 <= w < |place| && place[w] == p)
    && (forall w :: 0 <= w < |place| && place[w] == p ==> w in list)
  }

  function PulledHead(owner: Owner): int {
    if owner.InNext? && owner.at.Reverse? then owner.at.v else -1
  }

  ghost predicate Lists(next: seq<int>, shared: int, pulled: int, local: int, g: View) {
    && Chain(next, shared, g.shared) && Holds(g.shared, g.place, InShared)
    && Chain(next, pulled, g.pulled) && Holds(g.pulled, g.place, InPulled)
    && Chain(next, local, g.local) && Holds(g.local, g.place, InLocal)
  }

  /** Thread t, or the owner inside AddWaker for -1. */
  function Agent(owner: Owner, threads: seq<Pc>, t: int): Pc
    requires -1 <= t < |threads|
  {
    if t >= 0 then threads[t] else if owner.AddEnqueue? then owner.pc else Idle
  }

  predicate IsPushing(pc: Pc) {
    pc.LoadHead? || pc.PushCas?
  }

  ghost predicate Pushers(owner: Owner, threads: seq<Pc>, place: seq<Place>) {
    && (forall t :: -1 <= t < |threads| ==> var pc := Agent(owner, threads, t);
          IsPushing(pc) ==> 0 <= pc.w < |place| && place[pc.w] == Pushing(t))
    && (forall w :: 0 <= w < |place| && place[w].Pushing? ==>
          -1 <= place[w].t < |threads| && var pc := Agent(owner, threads, place[w].t); IsPushing(pc) && pc.w == w)
  }

  /** The sleeper's wakers are associated exactly when they are nowhere on their way to it; the
    * others are neither. */
  ghost predicate Links(link: seq<Link>, place: seq<Place>, mine: set<int>) {
    && |place| == |link|
    && (forall w :: 0 <= w < |link| ==>
          if w in mine then link[w].Associated? <==> place[w].Out? else !link[w].Associated? && place[w].Out?)
    && (forall w :: w in mine ==> 0 <= w < |link|)
  }

  /** Threads inside Assert and Clear name wakers that exist. */
  predicate Callers(n: nat, threads: seq<Pc>) {
    forall t :: 0 <= t < |threads| ==>
      threads[t].AssertLoad? || threads[t].AssertSwap? || threads[t].ClearLoad? || threads[t].ClearCas? ==>
        0 <= threads[t].w < n
  }

  function Members(list: seq<int>): (r: set<int>)
    ensures forall w :: w in r <==> w in list
  {
    set w | w in list
  }

  ghost predicate Owns(owner: Owner, all: seq<int>, link: seq<Link>, g: View) {
    && (forall w :: 0 <= w < |g.place| && g.place[w].Held? ==> owner.Swap? && owner.w == w)
    && match owner
       case Resting => NoDup(all) && Members(all) == g.mine
       case AddEnqueue(pc) => NoDup(all) && Members(all) == g.mine && (pc.LoadHead? || pc.PushCas? || pc.LoadG?)
       case Swap(w, _) => NoDup(all) && Members(all) == g.mine && w in g.mine && 0 <= w < |g.place| && g.place[w].Held?
       case AddLoad(w) => NoDup(all) && Members(all) == g.mine + {w} && w !in g.mine && 0 <= w < |link|
       case AddCas(w, p) => 
         NoDup(all) && Members(all) == g.mine + {w} && w !in g.mine && 0 <= w < |link| && !p.Asserted?
       case Scan(rest, pending) => Pending(rest, pending, link, g.mine)
       case ScanCas(w, rest, pending) => Pending([w] + rest, pending, link, g.mine)
       case InNext(_, ToFetch(_)) => NoDup(all) && Members(all) == g.mine
       case InNext(_, ToFinish(pending)) => Pending([], pending, link, g.mine) && pending != {}
  }

  /** Done still has to look at `rest`; what it could not dissociate is pending. */
  ghost predicate Pending(rest: seq<int>, pending: set<int>, link: seq<Link>, mine: set<int>) {
    && NoDup(rest) && mine == Members(rest) + pending && Members(rest) !! pending
    && (forall w :: w in mine ==> 0 <= w < |link|)
    && (forall w :: w in pending ==> !link[w].Associated?)
  }

  /** What nextWaker knows of the lists where it stands. */
  predicate Reading(owner: Owner, g: View) {
    if owner.InNext? then
      && (!owner.at.First? && !owner.at.Reverse? ==> g.local == [])
      && (!owner.at.Reverse? ==> g.pulled == [])
      && (owner.at.StoreZero? || owner.at.Pull? ==> g.shared != [])
      && (owner.at.Reverse? ==> g.pulled != [] || g.local != [])
    else g.pulled == []
  }

  predicate AtPark(owner: Owner) {
    owner.InNext? && owner.at.Parked?
  }

  predicate Sleepy(owner: Owner) {
    owner.InNext? && (owner.at.CommitLoad? || owner.at.CommitCas? || owner.at.Parked?)
  }

  /** The thread has pushed its waker and has not yet seen that nobody sleeps. */
  predicate Rousing(pc: Pc) {
    pc.LoadG? || pc.TakeG?
  }

  ghost predicate Sleeps(owner: Owner, threads: seq<Pc>, waiting: Waiting, shared: int) {
    && (!waiting.Zero? ==> owner.InNext? && (Sleepy(owner) || owner.at.CheckShared? || owner.at.StoreZero?))
    && (waiting.Sleeping? ==> AtPark(owner))
    && (AtPark(owner) ==> !waiting.Preparing?)
    && (forall t :: 0 <= t < |threads| && threads[t].TakeG? ==> !threads[t].g.Zero?)
    && (Sleepy(owner) && !waiting.Zero? && shared != -1 ==> exists t :: 0 <= t < |threads| && Rousing(threads[t]))
    // exactly one thread is about to wake a goroutine whose sleep was called off
    && (forall t :: 0 <= t < |threads| && threads[t].Ready? ==> AtPark(owner) && waiting.Zero?)
    && (forall t, u :: 0 <= t < u < |threads| && threads[t].Ready? ==> !threads[u].Ready?)
    && (AtPark(owner) && waiting.Zero? ==> exists t :: 0 <= t < |threads| && threads[t].Ready?)
  }

  ghost predicate Inv(st: State, g: View) {
    && |st.next| == |st.link|
    && Lists(st.next, st.shared, PulledHead(st.owner), st.local, g)
    && Pushers(st.owner, st.threads, g.place)
    && Links(st.link, g.place, g.mine)
    && Callers(|st.link|, st.threads)
    && Owns(st.owner, st.all, st.link, g)
    && Reading(st.owner, g)
    && Sleeps(st.owner, st.threads, st.waiting, st.shared)
    && st.parks == st.readies + (if AtPark(st.owner) then 1 else 0)
    && !st.fault
  }

  // ----- parts of the invariant that a step leaves alone

  lemma {:induction false} ChainFrame(next: seq<int>, head: int, list: seq<int>, w: int, v: int)
    requires Chain(next, head, list) && w !in list && 0 <= w < |next|
    ensures Chain(next[w := v], head, list)
    decreases |list|
  {
    if |list| > 0 {
      ChainFrame(next, next[head], list[1..], w, v);
    }
  }

  /** A waker that is on no list may have its pointer written. */
  lemma ListsFrame(next: seq<int>, shared: int, pulled: int, local: int, g: View, w: int, v: int)
    requires Lists(next, shared, pulled, local, g) && 0 <= w < |next| && w < |g.place|
    requires !g.place[w].InShared? && !g.place[w].InPulled? && !g.place[w].InLocal?
    ensures Lists(next[w := v], shared, pulled, local, g)
  {
    hide Chain, NoDup;
    ChainFrame(next, shared, g.shared, w, v);
    ChainFrame(next, pulled, g.pulled, w, v);
    ChainFrame(next, local, g.local, w, v);
  }

  lemma HoldsElsewhere(list: seq<int>, place: seq<Place>, p: Place, w: int, q: Place)
    requires Holds(list, place, p) && 0 <= w < |place| && place[w] != p && q != p
    ensures Holds(list, place[w := q], p)
  {
  }

  /** A waker moves between places that are not lists. */
  lemma ListsMove(next: seq<int>, shared: int, pulled: int, local: int, g: View, w: int, q: Place, mine: set<int>)
    requires Lists(next, shared, pulled, local, g) && 0 <= w < |g.place|
    requires !g.place[w].InShared? && !g.place[w].InPulled? && !g.place[w].InLocal?
    requires !q.InShared? && !q.InPulled? && !q.InLocal?
    ensures Lists(next, shared, pulled, local, g.(place := g.place[w := q], mine := mine))
  {
    hide Chain, Holds;
    HoldsElsewhere(g.shared, g.place, InShared, w, q);
    HoldsElsewhere(g.pulled, g.place, InPulled, w, q);
    HoldsElsewhere(g.local, g.place, InLocal, w, q);
  }

  /** A thread moves between points where it neither pushes, nor rouses, nor wakes. */
  predicate IsQuiet(pc: Pc) {
    !IsPushing(pc) && !Rousing(pc) && !pc.Ready?
  }

  lemma QuietMoves(st: State, g: View, t: nat, pc: Pc)
    requires Inv(st, g) && t < |st.threads| && IsQuiet(st.threads[t]) && IsQuiet(pc)
    requires pc.Idle? || IsWaker(st, pc.w)
    ensures Inv(st.(threads := st.threads[t := pc]), g)
  {
    hide Lists, Links, Owns, Reading;
    var threads := st.threads[t := pc];
    assert forall u :: -1 <= u < |threads| && u != t ==> Agent(st.owner, threads, u) == Agent(st.owner, st.threads, u);
    assert Agent(st.owner, threads, t) == pc && Agent(st.owner, st.threads, t) == st.threads[t];
    assert forall u :: 0 <= u < |threads| && u != t ==> threads[u] == st.threads[u];
  }

  // ----- Assert and Clear

  lemma ClearCasKeeps(st: State, g: View, t: nat)
    requires Inv(st, g) && t < |st.threads| && st.threads[t].ClearCas?
    ensures Inv(Step(st, Thread(t)), g)
  {
    var w := st.threads[t].w;
    QuietMoves(st, g, t, Idle);
    if st.link[w].Asserted? {
      Unassert(st.(threads := st.threads[t := Idle]), g, w);
    }
  }

  lemma Unassert(st: State, g: View, w: int)
    requires Inv(st, g) && IsWaker(st, w) && st.link[w].Asserted?
    ensures Inv(st.(link := st.link[w := Nil]), g)
  {
    hide Lists, Pushers, Reading, Sleeps, NoDup;
  }

  lemma AssertSwapKeeps(st: State, g: View, t: nat) returns (g': View)
    requires Inv(st, g) && t < |st.threads| && st.threads[t].AssertSwap?
    ensures Inv(Step(st, Thread(t)), g') && g'.shared == g.shared && g'.pulled == g.pulled && g'.local == g.local
  {
    var w := st.threads[t].w;
    if st.link[w].Associated? {
      g' := g.(place := g.place[w := Pushing(t)]);
      StartsPushing(st, g, t, w);
    } else {
      g' := g;
      QuietMoves(st, g, t, Idle);
      Reassert(st.(threads := st.threads[t := Idle]), g, w);
    }
  }

  lemma Reassert(st: State, g: View, w: int)
    requires Inv(st, g) && IsWaker(st, w) && !st.link[w].Associated?
    ensures Inv(st.(link := st.link[w := Asserted]), g)
  {
    hide Lists, Pushers, Reading, Sleeps, NoDup;
  }

  lemma StartsPushing(st: State, g: View, t: nat, w: int)
    requires Inv(st, g) && t < |st.threads| && IsQuiet(st.threads[t]) && IsWaker(st, w) && st.link[w].Associated?
    ensures Inv(st.(link := st.link[w := Asserted], threads := st.threads[t := LoadHead(w)]),
                g.(place := g.place[w := Pushing(t)]))
  {
    hide Lists, NoDup;
    ListsMove(st.next, st.shared, PulledHead(st.owner), st.local, g, w, Pushing(t), g.mine);
    var threads := st.threads[t := LoadHead(w)];
    assert forall u :: -1 <= u < |threads| && u != t ==> Agent(st.owner, threads, u) == Agent(st.owner, st.threads, u);
    assert Agent(st.owner, threads, t) == LoadHead(w) && Agent(st.owner, st.threads, t) == st.threads[t];
    assert forall u :: 0 <= u < |threads| && u != t ==> threads[u] == st.threads[u];
  }

  // ----- enqueueAssertedWaker, by a thread or (for -1) by the owner inside AddWaker

  function Become(st: State, t: int, pc: Pc): State
    requires -1 <= t < |st.threads|
  {
    if t >= 0 then st.(threads := st.threads[t := pc])
    else st.(owner := if pc.Idle? then Resting else AddEnqueue(pc))
  }

  /** A step of the agent: it changes the shared state and its own place in the code. */
  function AgentStep(st: State, t: int): State
    requires |st.next| == |st.link| && -1 <= t < |st.threads|
  {
    var (n, pc) := Enqueue(st, Agent(st.owner, st.threads, t));
    if t >= 0 then n.(threads := n.threads[t := pc]) else n.(owner := if pc.Idle? then Resting else AddEnqueue(pc))
  }

  lemma AgentMoves(st: State, g: View, t: int, pc: Pc)
    requires -1 <= t < |st.threads| && (t == -1 ==> st.owner.AddEnqueue? && !pc.Idle?)
    ensures var n := Become(st, t, pc);
      && Agent(n.owner, n.threads, t) == pc && |n.threads| == |st.threads|
      && forall u :: -1 <= u < |st.threads| && u != t ==> Agent(n.owner, n.threads, u) == Agent(st.owner, st.threads, u)
  {
  }

  lemma LoadHeadKeeps(st: State, g: View, t: int, v: int)
    requires Inv(st, g) && -1 <= t < |st.threads| && IsPushing(Agent(st.owner, st.threads, t))
    ensures var w := Agent(st.owner, st.threads, t).w;
      Inv(Become(st, t, PushCas(w, v)), g) && Inv(Become(st, t, LoadHead(w)), g)
  {
    hide Lists, Links, NoDup;
    var w := Agent(st.owner, st.threads, t).w;
    AgentMoves(st, g, t, PushCas(w, v));
    AgentMoves(st, g, t, LoadHead(w));
    KeepRousing(st, t, PushCas(w, v));
    KeepRousing(st, t, LoadHead(w));
  }

  /** Sleeps holds on when an agent that was pushing goes on pushing. */
  lemma KeepRousing(st: State, t: int, pc: Pc)
    requires Sleeps(st.owner, st.threads, st.waiting, st.shared) && -1 <= t < |st.threads|
    requires (t == -1 ==> st.owner.AddEnqueue? && !pc.Idle?)
    requires var a := Agent(st.owner, st.threads, t); !Rousing(a) && !a.Ready? && !Rousing(pc) && !pc.Ready?
    ensures var n := Become(st, t, pc); Sleeps(n.owner, n.threads, st.waiting, st.shared)
  {
    var n := Become(st, t, pc);
    assert forall u :: 0 <= u < |st.threads| && u != t ==> n.threads[u] == st.threads[u];
  }

  /** The push: the waker becomes the head of the shared list, even when the list was emptied and
    * filled again since its head was read. */
  lemma PushKeeps(st: State, g: View, t: int)
    requires Inv(st, g) && -1 <= t < |st.threads|
    requires var a := Agent(st.owner, st.threads, t); a.PushCas? && a.v == st.shared
    ensures var w := Agent(st.owner, st.threads, t).w;
      Inv(Become(st.(next := st.next[w := st.shared], shared := w), t, LoadG),
          g.(shared := [w] + g.shared, place := g.place[w := InShared]))
  {
    hide Chain;
    var w := Agent(st.owner, st.threads, t).w;
    var h := g.(shared := [w] + g.shared, place := g.place[w := InShared]);
    var n := st.(next := st.next[w := st.shared], shared := w);
    PushLists(st.next, st.shared, PulledHead(st.owner), st.local, g, w);
    AgentMoves(n, g, t, LoadG);
    PushSleeps(st, t, w);
    PushOwns(st, g, t, w);
  }

  lemma PushLists(next: seq<int>, shared: int, pulled: int, local: int, g: View, w: int)
    requires Lists(next, shared, pulled, local, g) && 0 <= w < |g.place| == |next| && g.place[w].Pushing?
    ensures Lists(next[w := shared], w, pulled, local, g.(shared := [w] + g.shared, place := g.place[w := InShared]))
  {
    ListsFrame(next, shared, pulled, local, g, w, shared);
    var n := next[w := shared];
    assert ([w] + g.shared)[1..] == g.shared;
    assert Chain(n, w, [w] + g.shared);
  }

  lemma PushSleeps(st: State, t: int, w: int)
    requires Sleeps(st.owner, st.threads, st.waiting, st.shared) && -1 <= t < |st.threads|
    requires Agent(st.owner, st.threads, t).PushCas?
    ensures var n := Become(st, t, LoadG); Sleeps(n.owner, n.threads, st.waiting, w)
  {
    var n := Become(st, t, LoadG);
    assert forall u :: 0 <= u < |st.threads| && u != t ==> n.threads[u] == st.threads[u];
    assert t >= 0 ==> Rousing(n.threads[t]);
  }

  lemma PushOwns(st: State, g: View, t: int, w: int)
    requires Inv(st, g) && -1 <= t < |st.threads|
    requires Agent(st.owner, st.threads, t).PushCas? && Agent(st.owner, st.threads, t).w == w
    ensures var n := Become(st, t, LoadG); var h := g.(shared := [w] + g.shared, place := g.place[w := InShared]);
      && Owns(n.owner, st.all, st.link, h) && Reading(n.owner, h) && Links(st.link, h.place, g.mine)
      && Pushers(n.owner, n.threads, h.place) && PulledHead(n.owner) == PulledHead(st.owner)
      && Callers(|st.link|, n.threads) && AtPark(n.owner) == AtPark(st.owner)
  {
    hide Lists, Sleeps, NoDup;
    AgentMoves(st, g, t, LoadG);
  }

  /** An agent that has pushed moves on while it may still have to wake the sleeper. */
  lemma RousesOn(st: State, g: View, t: int, pc: Pc)
    requires Inv(st, g) && -1 <= t < |st.threads| && (pc.LoadG? || (pc.TakeG? && !pc.g.Zero? && t >= 0))
    requires Rousing(Agent(st.owner, st.threads, t))
    ensures Inv(Become(st, t, pc), g)
  {
    hide Lists, Links, NoDup;
    AgentMoves(st, g, t, pc);
    var n := Become(st, t, pc);
    assert forall u :: 0 <= u < |st.threads| && u != t ==> n.threads[u] == st.threads[u];
    assert t >= 0 ==> Rousing(n.threads[t]);
  }

  /** Nobody sleeps: the agent is done. */
  lemma RousedNobody(st: State, g: View, t: int)
    requires Inv(st, g) && -1 <= t < |st.threads| && Rousing(Agent(st.owner, st.threads, t)) && st.waiting.Zero?
    ensures Inv(Become(st, t, Idle), g)
  {
    hide Lists, Links, NoDup;
    var n := Become(st, t, Idle);
    assert forall u :: 0 <= u < |st.threads| && u != t ==> n.threads[u] == st.threads[u];
    assert Agent(n.owner, n.threads, t) == Idle;
    assert forall u :: -1 <= u < |st.threads| && u != t ==>
      Agent(n.owner, n.threads, u) == Agent(st.owner, st.threads, u);
  }

  /** The sleep is called off: while it is being prepared, or, when it is committed, by the one
    * thread that then has to wake the goroutine. */
  lemma TakesG(st: State, g: View, t: nat)
    requires Inv(st, g) && t < |st.threads| && st.threads[t].TakeG? && st.threads[t].g == st.waiting
    ensures Inv(st.(waiting := Zero, threads := st.threads[t := if st.waiting.Sleeping? then Ready else LoadG]), g)
  {
    hide Lists, Links, NoDup;
    var pc := if st.waiting.Sleeping? then Ready else LoadG;
    var n := st.(waiting := Zero, threads := st.threads[t := pc]);
    assert forall u :: 0 <= u < |st.threads| && u != t ==> n.threads[u] == st.threads[u];
    assert forall u :: -1 <= u < |st.threads| && u != t ==>
      Agent(n.owner, n.threads, u) == Agent(st.owner, st.threads, u);
    assert Agent(n.owner, n.threads, t) == pc && n.threads[t] == pc;
  }

  lemma ReadyKeeps(st: State, g: View, t: nat)
    requires Inv(st, g) && t < |st.threads| && st.threads[t].Ready?
    ensures Inv(st.(owner := st.owner.(at := LoadShared), readies := st.readies + 1,
      threads := st.threads[t := LoadG]), g)
  {
    hide Lists, Links, NoDup;
    var n := st.(owner := st.owner.(at := LoadShared), readies := st.readies + 1, threads := st.threads[t := LoadG]);
    assert forall u :: 0 <= u < |st.threads| && u != t ==> n.threads[u] == st.threads[u];
    assert forall u :: -1 <= u < |st.threads| && u != t ==>
      Agent(n.owner, n.threads, u) == Agent(st.owner, st.threads, u);
    assert Agent(n.owner, n.threads, t) == LoadG && n.threads[t] == LoadG;
  }

  /** What changes in a step of enqueueAssertedWaker: a waker at the end of the queue, or nothing. */
  lemma AgentKeeps(st: State, g: View, t: int) returns (g': View)
    requires Inv(st, g) && -1 <= t < |st.threads|
    requires var a := Agent(st.owner, st.threads, t); IsPushing(a) || Rousing(a) || a.Ready?
    ensures Inv(AgentStep(st, t), g')
    ensures g' == g || exists w :: g'.shared == [w] + g.shared && g'.pulled == g.pulled && g'.local == g.local
  {
    hide Lists, Links, Pushers, Owns, Callers;
    var a := Agent(st.owner, st.threads, t);
    g' := g;
    AgentPlaces(st, g, t);
    match a {
      case LoadHead(w) => LoadHeadKeeps(st, g, t, st.shared);
      case PushCas(w, v) =>
        if st.shared == v {
          g' := g.(shared := [w] + g.shared, place := g.place[w := InShared]);
          PushKeeps(st, g, t);
        } else {
          WritesNext(st, g, w, v);
          LoadHeadKeeps(st.(next := st.next[w := v]), g, t, v);
        }
      case LoadG =>
        if st.waiting.Zero? {
          RousedNobody(st, g, t);
        } else {
          RousesOn(st, g, t, TakeG(st.waiting));
        }
      case TakeG(_) =>
        if st.waiting == a.g {
          TakesG(st, g, t);
        } else {
          RousesOn(st, g, t, LoadG);
        }
      case Ready => ReadyKeeps(st, g, t);
      case _ =>
    }
  }

  lemma AgentPlaces(st: State, g: View, t: int)
    requires Inv(st, g) && -1 <= t < |st.threads|
    ensures var a := Agent(st.owner, st.threads, t);
      && (IsPushing(a) ==> IsWaker(st, a.w) && a.w < |g.place| && g.place[a.w] == Pushing(t))
      && (a.TakeG? || a.Ready? ==> t >= 0) && (a.LoadG? && t == -1 ==> st.waiting.Zero?)
  {
    hide Lists, Reading;
  }

  lemma WritesNext(st: State, g: View, w: int, v: int)
    requires Inv(st, g) && IsWaker(st, w) && w < |g.place| && g.place[w].Pushing?
    ensures Inv(st.(next := st.next[w := v]), g)
  {
    hide Lists, Links, Pushers, Owns, Callers, Sleeps, Reading;
    ListsFrame(st.next, st.shared, PulledHead(st.owner), st.local, g, w, v);
  }

  // ----- the whole queue

  function Rev(s: seq<int>): (r: seq<int>)
    ensures |r| == |s|
  {
    if |s| == 0 then [] else Rev(s[1..]) + [s[0]]
  }

  /** The wakers on their way to the owner, in the order in which they were pushed. */
  function Queue(g: View): seq<int> {
    Rev(g.pulled) + g.local + Rev(g.shared)
  }

  /** The owner got waker w from nextWaker. */
  predicate Handed(st: State, n: State, w: int) {
    st.owner.InNext? &&
    match st.owner.purpose
    case ToFetch(block) => n.owner == Swap(w, block)
    case ToFinish(pending) =>
      && w in pending
      && n.owner == if pending == {w} then Resting else InNext(First, ToFinish(pending - {w}))
  }

  /** A step leaves the queue alone, puts a waker at its end, or hands its first out. */
  ghost predicate Fifo(st: State, n: State, q: seq<int>, r: seq<int>) {
    || r == q
    || (exists w :: r == q + [w])
    || (|q| > 0 && r == q[1..] && Handed(st, n, q[0]))
  }

  // ----- nextWaker

  /** The owner moves inside nextWaker without touching the lists. */
  lemma OwnerMoves(st: State, g: View, at: Next, waiting: Waiting, parks: nat)
    requires Inv(st, g) && st.owner.InNext? && !st.owner.at.Reverse? && !at.Reverse?
    requires Reading(st.owner.(at := at), g)
    requires Sleeps(st.owner.(at := at), st.threads, waiting, st.shared)
    requires parks == st.readies + if at.Parked? then 1 else 0
    ensures Inv(st.(owner := st.owner.(at := at), waiting := waiting, parks := parks), g)
  {
    hide Lists, Links, Sleeps, NoDup;
    assert forall u :: -1 <= u < |st.threads| ==>
      Agent(st.owner.(at := at), st.threads, u) == Agent(st.owner, st.threads, u);
  }

  lemma SharedHead(st: State, g: View)
    requires Inv(st, g)
    ensures st.shared == -1 <==> g.shared == []
    ensures st.local == -1 <==> g.local == []
    ensures |g.local| > 0 ==> IsWaker(st, st.local) && st.local == g.local[0]
  {
  }

  /** Every step of nextWaker up to the one that takes the shared list. */
  lemma WaitKeeps(st: State, g: View)
    requires Inv(st, g) && st.owner.InNext?
    requires var at := st.owner.at; !at.Pull? && !at.Reverse? && !(at.First? && st.local != -1)
    requires st.owner.at.LoadShared? ==> st.shared != -1 || st.owner.purpose.ToFinish? || st.owner.purpose.block
    ensures Inv(OwnStep(st), g)
  {
    hide Lists, Links, Pushers, Owns, Callers, Chain;
    SharedHead(st, g);
    var n := OwnStep(st);
    assert n.owner.InNext? && n == st.(owner := st.owner.(at := n.owner.at), waiting := n.waiting, parks := n.parks);
    OwnerMoves(st, g, n.owner.at, n.waiting, n.parks);
  }

  /** The owner moves somewhere that neither sleeps nor pushes. */
  lemma OwnerLeaves(st: State, owner: Owner)
    requires !st.owner.AddEnqueue? && !owner.AddEnqueue? && !Sleepy(st.owner) && st.waiting.Zero?
    requires Sleeps(st.owner, st.threads, st.waiting, st.shared) && !Sleepy(owner)
    ensures forall shared :: Sleeps(owner, st.threads, st.waiting, shared)
    ensures forall place :: Pushers(st.owner, st.threads, place) ==> Pushers(owner, st.threads, place)
    ensures AtPark(owner) == AtPark(st.owner)
  {
    assert forall u :: -1 <= u < |st.threads| ==> Agent(owner, st.threads, u) == Agent(st.owner, st.threads, u);
  }

  /** A call that may not block returns with nothing. */
  lemma GivesUp(st: State, g: View)
    requires Inv(st, g) && st.owner.InNext? && st.owner.at.LoadShared? && st.owner.purpose.ToFetch?
    ensures Inv(st.(owner := Resting), g)
  {
    hide Lists, Links, Pushers, Sleeps, NoDup;
    AwakeWaiting(st);
    OwnerLeaves(st, Resting);
  }

  lemma AwakeWaiting(st: State)
    requires Sleeps(st.owner, st.threads, st.waiting, st.shared)
    requires !Sleepy(st.owner) && !(st.owner.InNext? && (st.owner.at.CheckShared? || st.owner.at.StoreZero?))
    ensures st.waiting.Zero?
  {
  }

  /** What was pushed so far is the owner's alone; the pushes that follow start a new list. */
  lemma PullKeeps(st: State, g: View) returns (g': View)
    requires Inv(st, g) && st.owner.InNext? && st.owner.at.Pull?
    ensures Inv(OwnStep(st), g') && Queue(g') == Queue(g) && g'.pulled == g.shared
  {
    hide Links, Sleeps, Pushers, Chain, NoDup;
    SharedHead(st, g);
    AwakeWaiting(st);
    OwnerLeaves(st, OwnStep(st).owner);
    g' := g.(shared := [], pulled := g.shared, place := Relabel(g.place));
    RelabelHolds(g);
    RelabelPushers(st.owner, st.threads, g.place);
    RelabelLinks(st.link, g.place, g.mine);
    OwnerLeaves(st, OwnStep(st).owner);
    assert Chain(st.next, -1, []) by { EmptyChain(st.next); }
    EmptyRev();
  }

  lemma EmptyChain(next: seq<int>)
    ensures Chain(next, -1, [])
  {
  }

  lemma EmptyRev()
    ensures Rev([]) == []
  {
  }

  function Relabel(place: seq<Place>): (r: seq<Place>)
    ensures |r| == |place|
    ensures forall w :: 0 <= w < |place| ==> r[w] == if place[w].InShared? then InPulled else place[w]
  {
    seq(|place|, w requires 0 <= w < |place| => if place[w].InShared? then InPulled else place[w])
  }

  lemma RelabelHolds(g: View)
    requires Holds(g.shared, g.place, InShared) && Holds(g.pulled, g.place, InPulled)
      && Holds(g.local, g.place, InLocal)
    requires g.pulled == [] && g.local == []
    ensures var p := Relabel(g.place); Holds([], p, InShared) && Holds(g.shared, p, InPulled) && Holds([], p, InLocal)
  {
    hide NoDup;
    assert NoDup([]) by { EmptyNoDup(); }
  }

  lemma EmptyNoDup()
    ensures NoDup([])
  {
  }

  lemma RelabelPushers(owner: Owner, threads: seq<Pc>, place: seq<Place>)
    requires Pushers(owner, threads, place)
    ensures Pushers(owner, threads, Relabel(place))
  {
  }

  lemma RelabelLinks(link: seq<Link>, place: seq<Place>, mine: set<int>)
    requires Links(link, place, mine)
    ensures Links(link, Relabel(place), mine)
  {
  }

  /** One turn of the loop that reverses what was pulled. */
  lemma ReverseKeeps(st: State, g: View) returns (g': View)
    requires Inv(st, g) && st.owner.InNext? && st.owner.at.Reverse? && g.pulled != []
    ensures Inv(OwnStep(st), g') && Queue(g') == Queue(g) && |g'.pulled| < |g.pulled|
  {
    hide Links, Sleeps, Pushers, Chain, NoDup;
    var v := g.pulled[0];
    PulledFirst(st, g);
    AwakeWaiting(st);
    g' := g.(pulled := g.pulled[1..], local := [v] + g.local, place := g.place[v := InLocal]);
    ReverseLists(st.next, st.shared, v, st.local, g);
    MovesInside(st, g, v);
    OwnerLeaves(st, OwnStep(st).owner);
    assert Rev(g.pulled) == Rev(g.pulled[1..]) + [v];
    assert (Rev(g.pulled[1..]) + [v]) + g.local + Rev(g.shared) == Rev(g.pulled[1..]) + ([v] + g.local) + Rev(g.shared);
  }

  lemma PulledFirst(st: State, g: View)
    requires Inv(st, g) && g.pulled != []
    ensures var v := g.pulled[0]; 
      PulledHead(st.owner) == v && IsWaker(st, v) && |g.place| == |st.next| && g.place[v].InPulled?
  {
    hide Sleeps, Pushers, Owns;
    assert g.pulled[0] in g.pulled;
  }

  /** The first of a list goes somewhere else. */
  lemma HoldsTail(list: seq<int>, place: seq<Place>, p: Place, q: Place)
    requires Holds(list, place, p) && |list| > 0 && q != p
    ensures 0 <= list[0] < |place| && Holds(list[1..], place[list[0] := q], p)
  {
    var v := list[0];
    assert v in list;
    forall w | w in list[1..]
      ensures w in list && w != v
    {
      var i :| 0 <= i < |list[1..]| && list[1..][i] == w;
      assert list[i + 1] == w;
    }
    forall w | 0 <= w < |place| && place[v := q][w] == p
      ensures w in list[1..]
    {
      var i :| 0 <= i < |list| && list[i] == w;
      assert list[1..][i - 1] == w;
    }
  }

  lemma HoldsMore(list: seq<int>, place: seq<Place>, p: Place, w: int)
    requires Holds(list, place, p) && 0 <= w < |place| && place[w] != p
    ensures Holds([w] + list, place[w := p], p)
  {
  }

  lemma ReverseLists(next: seq<int>, shared: int, v: int, local: int, g: View)
    requires Lists(next, shared, v, local, g) && g.pulled != [] && |g.place| == |next| && g.pulled[0] == v
    ensures 0 <= v < |next|
    ensures Lists(next[v := local], shared, next[v], v,
                  g.(pulled := g.pulled[1..], local := [v] + g.local, place := g.place[v := InLocal]))
  {
    hide NoDup;
    HoldsTail(g.pulled, g.place, InPulled, InLocal);
    HoldsMore(g.local, g.place, InLocal, v);
    HoldsElsewhere(g.shared, g.place, InShared, v, InLocal);
    assert v in g.pulled && v !in g.shared && v !in g.local && v !in g.pulled[1..];
    ChainFrame(next, shared, g.shared, v, local);
    ChainFrame(next, next[v], g.pulled[1..], v, local);
    ChainFrame(next, local, g.local, v, local);
    assert ([v] + g.local)[1..] == g.local;
    assert Chain(next[v := local], v, [v] + g.local);
  }

  /** A waker moves from one of the lists to another. */
  lemma MovesInside(st: State, g: View, v: int)
    requires Pushers(st.owner, st.threads, g.place) && Links(st.link, g.place, g.mine) && 0 <= v < |g.place|
    requires g.place[v].InPulled?
    ensures Pushers(st.owner, st.threads, g.place[v := InLocal]) && Links(st.link, g.place[v := InLocal], g.mine)
  {
  }

  // ----- handing a waker out

  lemma PopLists(next: seq<int>, shared: int, local: int, g: View, place: Place, mine: set<int>)
    requires Lists(next, shared, -1, local, g) && g.local != [] && |g.place| == |next| && (place.Held? || place.Out?)
    ensures 0 <= local < |next| && local == g.local[0] && g.place[local].InLocal?
    ensures Lists(next, shared, -1, next[local],
                  g.(local := g.local[1..], place := g.place[local := place], mine := mine))
  {
    hide NoDup;
    assert local in g.local;
    HoldsTail(g.local, g.place, InLocal, place);
    HoldsElsewhere(g.shared, g.place, InShared, local, place);
    HoldsElsewhere(g.pulled, g.place, InPulled, local, place);
  }

  lemma PulledNone(st: State, g: View)
    requires Inv(st, g) && PulledHead(st.owner) == -1
    ensures g.pulled == []
  {
  }

  lemma PopToFetch(st: State, g: View) returns (g': View)
    requires Inv(st, g) && st.owner.InNext? && st.owner.purpose.ToFetch? && PulledHead(st.owner) == -1
    requires (st.owner.at.First? && st.local != -1) || st.owner.at.Reverse?
    ensures Inv(OwnStep(st), g') && Handed(st, OwnStep(st), Queue(g)[0]) && Queue(g') == Queue(g)[1..]
  {
    hide Chain, Sleeps, Pushers, NoDup;
    PulledNone(st, g);
    SharedHead(st, g);
    AwakeWaiting(st);
    PopLists(st.next, st.shared, st.local, g, Held, g.mine);
    var w := g.local[0];
    g' := g.(local := g.local[1..], place := g.place[w := Held]);
    var n := OwnStep(st);
    assert n == st.(local := st.next[w], owner := Swap(w, st.owner.purpose.block));
    OwnerLeaves(st, n.owner);
    LeavesLocal(st, g, w, Held);
    PoppedQueue(g, g');
    assert Links(n.link, g'.place, g'.mine) && w in g.mine;
  }

  lemma LeavesLocal(st: State, g: View, w: int, p: Place)
    requires Pushers(st.owner, st.threads, g.place) && 0 <= w < |g.place| && g.place[w].InLocal? && !p.Pushing?
    ensures Pushers(st.owner, st.threads, g.place[w := p])
  {
  }

  lemma PoppedQueue(g: View, h: View)
    requires g.pulled == [] == h.pulled && g.local != [] && h.local == g.local[1..] && h.shared == g.shared
    ensures Queue(g) == g.local + Rev(g.shared) && Queue(h) == Queue(g)[1..] && Queue(g)[0] == g.local[0]
  {
    EmptyRev();
    assert [] + g.local + Rev(g.shared) == g.local + Rev(g.shared);
    assert [] + h.local + Rev(h.shared) == h.local + Rev(h.shared);
  }

  /** Done takes a waker off its list of pending ones; with the last of them it is over. */
  lemma PopToFinish(st: State, g: View) returns (g': View)
    requires Inv(st, g) && st.owner.InNext? && st.owner.purpose.ToFinish? && PulledHead(st.owner) == -1
    requires (st.owner.at.First? && st.local != -1) || st.owner.at.Reverse?
    ensures Inv(OwnStep(st), g') && Handed(st, OwnStep(st), Queue(g)[0]) && Queue(g') == Queue(g)[1..]
  {
    hide Chain, Sleeps, Pushers;
    PulledNone(st, g);
    SharedHead(st, g);
    AwakeWaiting(st);
    var w := g.local[0];
    PopLists(st.next, st.shared, st.local, g, Out, g.mine - {w});
    g' := g.(local := g.local[1..], place := g.place[w := Out], mine := g.mine - {w});
    var n := OwnStep(st);
    var pending := st.owner.purpose.pending;
    assert w in pending && Members([]) == {};
    OwnerLeaves(st, n.owner);
    LeavesLocal(st, g, w, Out);
    PoppedQueue(g, g');
    if pending - {w} == {} {
      assert pending == {w};
    }
  }

  // ----- the rest of Fetch, AddWaker and Done

  /** Fetch associates the waker again; it returns it if it was still asserted. */
  lemma SwapKeeps(st: State, g: View) returns (g': View)
    requires Inv(st, g) && st.owner.Swap?
    ensures Inv(OwnStep(st), g') && Queue(g') == Queue(g)
  {
    hide Sleeps, Pushers, NoDup, Lists;
    AwakeWaiting(st);
    var w := st.owner.w;
    g' := g.(place := g.place[w := Out]);
    ListsMove(st.next, st.shared, PulledHead(st.owner), st.local, g, w, Out, g.mine);
    OwnerLeaves(st, OwnStep(st).owner);
    Lands(st, g, w);
  }

  lemma Lands(st: State, g: View, w: int)
    requires Pushers(st.owner, st.threads, g.place) && 0 <= w < |g.place| && !g.place[w].Pushing?
    ensures Pushers(st.owner, st.threads, g.place[w := Out])
  {
  }

  lemma BeginAddKeeps(st: State, g: View, w: int)
    requires Inv(st, g) && st.owner.Resting? && IsWaker(st, w) && w !in st.all
    ensures Inv(Step(st, BeginAdd(w)), g)
  {
    hide Sleeps, Pushers, Lists;
    AwakeWaiting(st);
    OwnerLeaves(st, AddLoad(w));
  }

  lemma AddLoadKeeps(st: State, g: View) returns (g': View)
    requires Inv(st, g) && st.owner.AddLoad?
    ensures Inv(OwnStep(st), g') && Queue(g') == Queue(g)
  {
    hide NoDup, Lists;
    AwakeWaiting(st);
    var w := st.owner.w;
    if st.link[w].Asserted? {
      g' := g.(place := g.place[w := Pushing(-1)], mine := g.mine + {w});
      ListsMove(st.next, st.shared, PulledHead(st.owner), st.local, g, w, Pushing(-1), g.mine + {w});
      var n := OwnStep(st);
      assert Agent(n.owner, n.threads, -1) == LoadHead(w) && Agent(st.owner, st.threads, -1) == Idle;
      assert forall u :: 0 <= u < |st.threads| ==> Agent(n.owner, n.threads, u) == Agent(st.owner, st.threads, u);
    } else {
      g' := g;
      OwnerLeaves(st, AddCas(w, st.link[w]));
    }
  }

  lemma AddCasKeeps(st: State, g: View) returns (g': View)
    requires Inv(st, g) && st.owner.AddCas?
    ensures Inv(OwnStep(st), g') && Queue(g') == Queue(g)
  {
    hide Sleeps, Pushers, NoDup, Lists;
    AwakeWaiting(st);
    var w := st.owner.w;
    OwnerLeaves(st, OwnStep(st).owner);
    if st.link[w] == st.owner.p {
      g' := g.(mine := g.mine + {w});
      ListsSame(st.next, st.shared, PulledHead(st.owner), st.local, g, g.mine + {w});
    } else {
      g' := g;
    }
  }

  lemma ListsSame(next: seq<int>, shared: int, pulled: int, local: int, g: View, mine: set<int>)
    requires Lists(next, shared, pulled, local, g)
    ensures Lists(next, shared, pulled, local, g.(mine := mine))
  {
  }

  lemma BeginDoneKeeps(st: State, g: View)
    requires Inv(st, g) && st.owner.Resting?
    ensures Inv(Step(st, BeginDone), g)
  {
    hide Sleeps, Pushers, Lists, NoDup;
    AwakeWaiting(st);
    OwnerLeaves(st, Scan(st.all, {}));
    assert Members(st.all) + {} == g.mine;
  }

  lemma BeginFetchKeeps(st: State, g: View, block: bool)
    requires Inv(st, g) && st.owner.Resting?
    ensures Inv(Step(st, BeginFetch(block)), g)
  {
    hide Sleeps, Pushers, Lists, NoDup;
    AwakeWaiting(st);
    OwnerLeaves(st, InNext(First, ToFetch(block)));
  }

  lemma ScanKeeps(st: State, g: View)
    requires Inv(st, g) && st.owner.Scan?
    ensures Inv(OwnStep(st), g)
  {
    hide Sleeps, Pushers, Lists;
    AwakeWaiting(st);
    OwnerLeaves(st, OwnStep(st).owner);
    var rest := st.owner.rest;
    if |rest| > 0 {
      var w := rest[0];
      assert w in rest && rest == [w] + rest[1..];
      FirstOnce(rest);
      assert Members(rest) == Members(rest[1..]) + {w};
    } else {
      assert Members(rest) == {};
    }
  }

  lemma FirstOnce(list: seq<int>)
    requires NoDup(list) && |list| > 0
    ensures list[0] !in list[1..] && NoDup(list[1..])
  {
    forall i | 0 <= i < |list[1..]|
      ensures list[1..][i] != list[0]
    {
      assert list[1..][i] == list[i + 1];
    }
  }

  lemma ScanCasKeeps(st: State, g: View) returns (g': View)
    requires Inv(st, g) && st.owner.ScanCas?
    ensures Inv(OwnStep(st), g') && Queue(g') == Queue(g)
  {
    hide Sleeps, Pushers, Lists;
    AwakeWaiting(st);
    OwnerLeaves(st, OwnStep(st).owner);
    var w, rest := st.owner.w, st.owner.rest;
    g' := g;
    assert ([w] + rest)[0] == w && ([w] + rest)[1..] == rest;
    FirstOnce([w] + rest);
    assert w in [w] + rest && Members([w] + rest) == {w} + Members(rest);
    if st.link[w].Associated? {
      g' := g.(mine := g.mine - {w});
      ListsSame(st.next, st.shared, PulledHead(st.owner), st.local, g, g.mine - {w});
    }
  }

  // ----- every step, every run

  lemma OwnKeeps(st: State, g: View) returns (g': View)
    requires Inv(st, g)
    ensures Inv(OwnStep(st), g') && Fifo(st, OwnStep(st), Queue(g), Queue(g'))
  {
    hide Lists, Links, Pushers, Owns, Sleeps, Callers, Queue;
    g' := g;
    match st.owner {
      case Resting =>
      case AddLoad(_) => g' := AddLoadKeeps(st, g);
      case AddCas(_, _) => g' := AddCasKeeps(st, g);
      case AddEnqueue(pc) =>
        AddingPushes(st, g);
        g' := AgentKeeps(st, g, -1);
        QueueGrows(g, g');
      case InNext(at, purpose) => g' := NextKeeps(st, g);
      case Swap(_, _) => g' := SwapKeeps(st, g);
      case Scan(_, _) => ScanKeeps(st, g);
      case ScanCas(_, _, _) => g' := ScanCasKeeps(st, g);
    }
  }

  lemma AddingPushes(st: State, g: View)
    requires Inv(st, g) && st.owner.AddEnqueue?
    ensures var pc := st.owner.pc; (IsPushing(pc) || Rousing(pc)) && OwnStep(st) == AgentStep(st, -1)
    ensures |g.pulled| == 0
  {
  }

  lemma QueueGrows(g: View, h: View)
    requires h == g || exists w :: h.shared == [w] + g.shared && h.pulled == g.pulled && h.local == g.local
    ensures Queue(h) == Queue(g) || exists w :: Queue(h) == Queue(g) + [w]
  {
    if h != g {
      var w :| h.shared == [w] + g.shared && h.pulled == g.pulled && h.local == g.local;
      assert h.shared[1..] == g.shared;
      assert Rev(h.pulled) + h.local + (Rev(g.shared) + [w]) == Queue(g) + [w];
    }
  }

  lemma NextKeeps(st: State, g: View) returns (g': View)
    requires Inv(st, g) && st.owner.InNext?
    ensures Inv(OwnStep(st), g') && Fifo(st, OwnStep(st), Queue(g), Queue(g'))
  {
    hide Lists, Links, Pushers, Owns, Sleeps, Callers, Queue, OwnStep, Handed;
    var at := st.owner.at;
    g' := g;
    SharedHead(st, g);
    if at.Pull? {
      g' := PullKeeps(st, g);
    } else if at.Reverse? && g.pulled != [] {
      g' := ReverseKeeps(st, g);
    } else if at.Reverse? || (at.First? && st.local != -1) {
      NothingPulled(st, g);
      if st.owner.purpose.ToFetch? {
        g' := PopToFetch(st, g);
      } else {
        g' := PopToFinish(st, g);
      }
      QueueNotEmpty(st, g);
    } else if at.LoadShared? && st.shared == -1 && st.owner.purpose.ToFetch? && !st.owner.purpose.block {
      GivesUp(st, g);
      GivesUpIs(st);
    } else {
      WaitKeeps(st, g);
    }
  }

  lemma GivesUpIs(st: State)
    requires |st.next| == |st.link| && st.owner.InNext? && st.owner.at.LoadShared? && st.shared == -1
    requires st.owner.purpose.ToFetch? && !st.owner.purpose.block
    ensures OwnStep(st) == st.(owner := Resting)
  {
  }

  lemma NothingPulled(st: State, g: View)
    requires Inv(st, g) && g.pulled == []
    ensures PulledHead(st.owner) == -1
  {
  }

  lemma QueueNotEmpty(st: State, g: View)
    requires Inv(st, g) && st.owner.InNext? && g.pulled == []
    requires st.owner.at.Reverse? || st.local != -1
    ensures |Queue(g)| > 0
  {
    SharedHead(st, g);
  }

  lemma ThreadKeeps(st: State, g: View, t: nat) returns (g': View)
    requires Inv(st, g) && t < |st.threads|
    ensures Inv(Step(st, Thread(t)), g') && Fifo(st, Step(st, Thread(t)), Queue(g), Queue(g'))
  {
    hide Lists, Links, Pushers, Owns, Sleeps, Queue, Enqueue;
    var pc := st.threads[t];
    g' := g;
    if pc.AssertSwap? {
      g' := AssertSwapKeeps(st, g, t);
      SameLists(g, g');
    } else if pc.ClearCas? {
      ClearCasKeeps(st, g, t);
    } else if IsPushing(pc) || Rousing(pc) || pc.Ready? {
      g' := AgentKeeps(st, g, t);
      QueueGrows(g, g');
    } else {
      QuietMoves(st, g, t, Work(st, pc).1);
    }
  }

  lemma SameLists(g: View, h: View)
    requires h.shared == g.shared && h.pulled == g.pulled && h.local == g.local
    ensures Queue(h) == Queue(g)
  {
  }

  /** Every step, of any goroutine, keeps the invariant, and treats the wakers on their way to
    * the owner as a queue. */
  lemma StepKeeps(st: State, g: View, e: Event) returns (g': View)
    requires Inv(st, g)
    ensures Inv(Step(st, e), g') && Fifo(st, Step(st, e), Queue(g), Queue(g'))
  {
    hide Lists, Links, Pushers, Owns, Sleeps, Queue, OwnStep, Work;
    g' := g;
    match e {
      case BeginAssert(t, w) =>
        if t < |st.threads| && st.threads[t].Idle? && IsWaker(st, w) {
          QuietMoves(st, g, t, AssertLoad(w));
        }
      case BeginClear(t, w) =>
        if t < |st.threads| && st.threads[t].Idle? && IsWaker(st, w) {
          QuietMoves(st, g, t, ClearLoad(w));
        }
      case Thread(t) =>
        if t < |st.threads| {
          g' := ThreadKeeps(st, g, t);
        }
      case BeginAdd(w) =>
        if st.owner.Resting? && IsWaker(st, w) && w !in st.all {
          BeginAddKeeps(st, g, w);
        }
      case BeginFetch(block) =>
        if st.owner.Resting? {
          BeginFetchKeeps(st, g, block);
        }
      case BeginDone =>
        if st.owner.Resting? {
          BeginDoneKeeps(st, g);
        }
      case Own => g' := OwnKeeps(st, g);
    }
  }

  function Run(st: State, es: seq<Event>): (r: State)
    requires |st.next| == |st.link|
    decreases |es|
  {
    if |es| == 0 then st else Run(Step(st, es[0]), es[1..])
  }

  /** No waker associated, nobody anywhere: links are nil, or asserted before they are added. */
  ghost predicate Fresh(st: State) {
    && |st.next| == |st.link| && (forall w :: 0 <= w < |st.link| ==> !st.link[w].Associated?)
    && st.shared == -1 && st.local == -1 && st.waiting.Zero? && st.all == [] && st.owner.Resting?
    && (forall t :: 0 <= t < |st.threads| ==> st.threads[t].Idle?)
    && st.parks == st.readies == 0 && !st.fault
  }

  lemma FreshKeeps(st: State) returns (g: View)
    requires Fresh(st)
    ensures Inv(st, g) && Queue(g) == []
  {
    g := View([], [], [], seq(|st.link|, _ => Out), {});
  }

  lemma {:induction false} RunKeeps(st: State, g: View, es: seq<Event>) returns (g': View)
    requires Inv(st, g)
    ensures Inv(Run(st, es), g')
    decreases |es|
  {
    hide Inv, Step;
    InvSizes(st, g);
    if |es| == 0 {
      g' := g;
    } else {
      var h := StepKeeps(st, g, es[0]);
      InvSizes(Step(st, es[0]), h);
      g' := RunKeeps(Step(st, es[0]), h, es[1..]);
    }
  }

  lemma InvSizes(st: State, g: View)
    requires Inv(st, g)
    ensures |st.next| == |st.link|
  {
  }

  // ----- what it means

  /** No lost wake-up: if the owner is parked and something was pushed, some thread that pushed
    * has not yet seen that nobody sleeps, and will wake it. goready is only ever called on a
    * parked goroutine, once for each sleep that was committed. */
  lemma NoLostWakeup(st: State, g: View)
    requires Inv(st, g)
    ensures AtPark(st.owner) && st.shared != -1 ==>
      exists t :: 0 <= t < |st.threads| && (Rousing(st.threads[t]) || st.threads[t].Ready?)
    ensures !st.fault && st.readies + (if AtPark(st.owner) then 1 else 0) == st.parks
    ensures forall t, u :: 0 <= t < u < |st.threads| && st.threads[t].Ready? ==> !st.threads[u].Ready?
  {
    hide Lists, Links, Pushers, Owns, Callers;
    assert AtPark(st.owner) ==> Sleepy(st.owner);
  }

  /** A call of Fetch that may not block comes back with nothing only when nothing is queued. */
  lemma EmptyHanded(st: State, g: View)
    requires Inv(st, g) && st.owner.InNext? && st.owner.at.LoadShared? && OwnStep(st).owner.Resting?
    ensures Queue(g) == [] && st.owner.purpose == ToFetch(false)
  {
    SharedHead(st, g);
    EmptyRev();
  }

  /** With every thread between calls, a parked owner has no asserted waker: it sleeps for good
    * reason. */
  lemma SleepsForAReason(st: State, g: View, w: int)
    requires Inv(st, g) && AtPark(st.owner) && w in g.mine
    requires forall t :: 0 <= t < |st.threads| ==> st.threads[t].Idle?
    ensures IsWaker(st, w) && st.link[w].Associated?
  {
    NoLostWakeup(st, g);
    SharedHead(st, g);
    if g.place[w].Pushing? {
      assert false;
    }
  }

  /** An asserted waker of this sleeper is queued, being queued, or held by Fetch; one that is
    * not on its way is associated. No waker is twice in the queue, or in it while being queued. */
  lemma OnItsWay(st: State, g: View, w: int)
    requires Inv(st, g) && w in g.mine
    ensures IsWaker(st, w) && (st.link[w].Associated? <==>
      w !in Queue(g) && !PushedBySomeone(st, w) && !HeldByFetch(st, w))
    ensures NoDup(Queue(g)) && (w in Queue(g) ==> !PushedBySomeone(st, w) && !HeldByFetch(st, w))
  {
    hide Sleeps, Reading, Callers, Chain;
    InQueue(g, w);
    QueueNoDup(g);
    forall t | -1 <= t < |st.threads| && IsPushing(Agent(st.owner, st.threads, t))
      && Agent(st.owner, st.threads, t).w == w
      ensures g.place[w] == Pushing(t)
    {
    }
  }

  ghost predicate PushedBySomeone(st: State, w: int) {
    exists t :: -1 <= t < |st.threads| && IsPushing(Agent(st.owner, st.threads, t))
      && Agent(st.owner, st.threads, t).w == w
  }

  predicate HeldByFetch(st: State, w: int) {
    st.owner.Swap? && st.owner.w == w
  }

  lemma {:induction false} RevSame(s: seq<int>, w: int)
    ensures w in Rev(s) <==> w in s
    decreases |s|
  {
    if |s| > 0 {
      RevSame(s[1..], w);
      assert s == [s[0]] + s[1..];
    }
  }

  lemma {:induction false} RevNoDup(s: seq<int>)
    requires NoDup(s)
    ensures NoDup(Rev(s))
    decreases |s|
  {
    if |s| > 0 {
      FirstOnce(s);
      RevNoDup(s[1..]);
      RevSame(s[1..], s[0]);
    }
  }

  lemma InQueue(g: View, w: int)
    ensures w in Queue(g) <==> w in g.pulled || w in g.local || w in g.shared
  {
    RevSame(g.pulled, w);
    RevSame(g.shared, w);
  }

  lemma JoinNoDup(a: seq<int>, b: seq<int>)
    requires NoDup(a) && NoDup(b) && forall w :: w in a ==> w !in b
    ensures NoDup(a + b)
  {
    forall i, j | 0 <= i < j < |a + b|
      ensures (a + b)[i] != (a + b)[j]
    {
      if i < |a| <= j {
        assert a[i] in a && b[j - |a|] in b;
      }
    }
  }

  lemma QueueNoDup(g: View)
    requires Holds(g.shared, g.place, InShared) && Holds(g.pulled, g.place, InPulled)
      && Holds(g.local, g.place, InLocal)
    ensures NoDup(Queue(g))
  {
    hide NoDup;
    RevNoDup(g.pulled);
    RevNoDup(g.shared);
    forall w | w in Rev(g.pulled)
      ensures w !in g.local
    {
      RevSame(g.pulled, w);
    }
    JoinNoDup(Rev(g.pulled), g.local);
    forall w | w in Rev(g.pulled) + g.local
      ensures w !in Rev(g.shared)
    {
      RevSame(g.pulled, w);
      RevSame(g.shared, w);
    }
    JoinNoDup(Rev(g.pulled) + g.local, Rev(g.shared));
  }

  /** When Done returns, no waker is on its way to the sleeper, and none will ever be. */
  lemma DoneMeansDone(st: State, g: View, w: int)
    requires Inv(st, g) && st.owner.Resting? && st.all == [] && IsWaker(st, w)
    ensures Queue(g) == [] && !PushedBySomeone(st, w) && !st.link[w].Associated?
  {
    hide Sleeps, Callers, Chain, NoDup;
    assert g.mine == {};
    if |Queue(g)| > 0 {
      InQueue(g, Queue(g)[0]);
    }
  }

  /** Over every run, by any number of goroutines in any interleaving. */
  lemma EveryRun(st: State, es: seq<Event>) returns (g: View)
    requires Fresh(st)
    ensures var n := Run(st, es);
      && Inv(n, g) && !n.fault && n.readies <= n.parks <= n.readies + 1
      && (AtPark(n.owner) && n.shared != -1 ==>
            exists t :: 0 <= t < |n.threads| && (Rousing(n.threads[t]) || n.threads[t].Ready?))
  {
    hide Inv, Fresh, Run, Rousing;
    var g0 := FreshKeeps(st);
    InvSizes(st, g0);
    g := RunKeeps(st, g0, es);
    NoLostWakeup(Run(st, es), g);
  }
}
