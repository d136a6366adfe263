/** The lazily cancelled timer, protocol/transport/tcp/timer.go.
  *
  * Times are integers. `armed` is the runtime timer, which fires at runtimeTarget; `wake`
  * is the assertion of the waker that its firing leaves behind.
  */
module Timer {
  datatype Mode = Disabled | Enabled | Orphaned

  datatype State = State(mode: Mode, target: int, runtimeTarget: int, armed: bool, wake: bool) {
    function Enable(now: int, d: int): State {
      var e := this.(target := now + d, mode := Enabled);
      if mode.Disabled? || now + d < runtimeTarget then e.(runtimeTarget := now + d, armed := true) else e
    }

    function Disable(): State {
      if mode.Disabled? then this else this.(mode := Orphaned)
    }

    /** The state after checkExpiration, and whether the timer has expired. */
    function CheckExpiration(now: int): (State, bool) {
      if mode.Orphaned? then (this.(mode := Disabled), false)
      else if now < target then (this.(runtimeTarget := target, armed := true), false)
      else (this.(mode := Disabled), true)
    }
  }

  function Init(): State {
    State(Disabled, 0, 0, false, false)
  }

  // ----- the object

  class TcpTimer {
    var mode: Mode
    var target: int
    var runtimeTarget: int
    var armed: bool     // the runtime timer
    var wake: bool      // the waker it asserts

    ghost function Value(): State
      reads this
    {
      State(mode, target, runtimeTarget, armed, wake)
    }

    constructor ()
      ensures Value() == Init()
    {
      mode, target, runtimeTarget, armed, wake := Disabled, 0, 0, false, false;
    }

    method CheckExpiration(now: int) returns (expired: bool)
      modifies this
      ensures (Value(), expired) == old(Value()).CheckExpiration(now)
    {
      if mode == Orphaned {
        mode := Disabled;
        return false;
      }
      if now < target {
        runtimeTarget := target;
        armed := true;
        return false;
      }
      mode := Disabled;
      return true;
    }

    method Disable()
      modifies this
      ensures Value() == old(Value()).Disable()
    {
      if mode != Disabled {
        mode := Orphaned;
      }
    }

    method Enable(now: int, d: int)
      modifies this
      ensures Value() == old(Value()).Enable(now, d)
    {
      target := now + d;
      if mode == Disabled || target < runtimeTarget {
        runtimeTarget := target;
        armed := true;
      }
      mode := Enabled;
    }
  }

  // ----- runs

  /** What can happen at one moment: the two calls, the runtime timer firing, and the waker's
    * owner waking up and checking. */
  datatype Event = Start(d: nat) | Stop | Fire | Check

  predicate Possible(t: State, now: int, e: Event) {
    match e
    case Fire => t.armed && t.runtimeTarget <= now
    case Check => t.wake
    case _ => true
  }

  function Apply(t: State, now: int, e: Event): State {
    match e
    case Start(d) => t.Enable(now, d)
    case Stop => t.Disable()
    case Fire => t.(armed := false, wake := true)
    case Check => t.(wake := false).CheckExpiration(now).0
  }

  /** Never both armed and woken; a disabled timer is neither; an enabled one is woken, or
    * armed no later than its target; an orphan will wake its owner once more. */
  predicate Inv(t: State, now: int) {
    && !(t.armed && t.wake)
    && (t.mode.Disabled? ==> !t.armed && !t.wake)
    && (t.mode.Enabled? ==> t.wake || (t.armed && t.runtimeTarget <= t.target))
    && (t.mode.Orphaned? ==> t.wake || t.armed)
    && (t.wake ==> t.runtimeTarget <= now)
  }

  lemma ApplyKeeps(t: State, now: int, e: Event)
    requires Inv(t, now) && Possible(t, now, e)
    ensures Inv(Apply(t, now, e), now)
    // only an enabled timer expires, and not before its current target
    ensures e.Check? && t.(wake := false).CheckExpiration(now).1 ==> t.mode.Enabled? && t.target <= now
    // a spurious wake of an enabled timer arms it for its target
    ensures e.Check? && t.mode.Enabled? && !t.(wake := false).CheckExpiration(now).1
      ==> var o := Apply(t, now, e); o.mode.Enabled? && o.armed && o.runtimeTarget == t.target
  {
  }

  function Run(t: State, es: seq<(int, Event)>): State
    decreases |es|
  {
    if |es| == 0 then t else Run(Apply(t, es[0].0, es[0].1), es[1..])
  }

  predicate PossibleRun(t: State, now: int, es: seq<(int, Event)>)
    decreases |es|
  {
    |es| == 0
    || (now <= es[0].0 && Possible(t, es[0].0, es[0].1) && PossibleRun(Apply(t, es[0].0, es[0].1), es[0].0, es[1..]))
  }

  function Last(now: int, es: seq<(int, Event)>): int {
    if |es| == 0 then now else es[|es| - 1].0
  }

  /** In every run: the invariant, and so an enabled timer whose target has passed is never
    * forgotten: its wake is pending or the runtime timer is due. */
  lemma {:induction false} RunKeeps(t: State, now: int, es: seq<(int, Event)>)
    requires Inv(t, now) && PossibleRun(t, now, es)
    ensures var o := Run(t, es); var then' := Last(now, es);
      && Inv(o, then')
      && (o.mode.Enabled? && o.target <= then' ==> o.wake || (o.armed && o.runtimeTarget <= then'))
    decreases |es|
  {
    if |es| > 0 {
      assert Inv(t, es[0].0);
      ApplyKeeps(t, es[0].0, es[0].1);
      RunKeeps(Apply(t, es[0].0, es[0].1), es[0].0, es[1..]);
    }
  }

  lemma InitInv(now: int)
    ensures Inv(Init(), now)
  {
  }

  /** Wakes and checks, all before a time. */
  predicate Before(es: seq<(int, Event)>, time: int) {
    forall i :: 0 <= i < |es| ==> es[i].0 < time && (es[i].1.Fire? || es[i].1.Check?)
  }

  /** A timer enabled at `start` for d, whatever it was, and whatever wakes in between: a check at
    * `now` expires it exactly when d has passed. */
  lemma {:induction false} DueExactly(t: State, start: int, d: nat, es: seq<(int, Event)>, now: int)
    requires Before(es, start + d)
    ensures var o := Run(Apply(t, start, Start(d)), es); o.CheckExpiration(now).1 <==> now >= start + d
  {
    StaysEnabled(Apply(t, start, Start(d)), es);
  }

  lemma {:induction false} StaysEnabled(t: State, es: seq<(int, Event)>)
    requires t.mode.Enabled? && Before(es, t.target)
    ensures Run(t, es).mode.Enabled? && Run(t, es).target == t.target
    decreases |es|
  {
    if |es| > 0 {
      StaysEnabled(Apply(t, es[0].0, es[0].1), es[1..]);
    }
  }

  /** After a stop nothing expires until the next start. */
  lemma StoppedNeverExpires(t: State, time: int, now: int)
    requires t.mode.Enabled? || t.mode.Orphaned?
    ensures !Apply(t, time, Stop).CheckExpiration(now).1
  {
  }
}
