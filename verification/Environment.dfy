/** One-time environment setup under a condition variable, with any number of callers interleaved. */
module Environment {
  import opened Prelude

  datatype EnvironmentState = NotStarted | Running | Succeeded | Failed

  /**
   * Where one caller is: before its first lock, asleep on the condition, woken but without the lock,
   * running the hook outside the lock, holding the hook's result, returned, or ended by an exception
   * that the hook let through.
   */
  datatype Caller = Outside | Waiting | Woken | Executing | Holding(success: bool) | Returned(success: bool) | Died

  datatype World = World(
    state: EnvironmentState,
    result: Option<bool>,
    callers: seq<Caller>,
    setups: nat)

  /** One atomic step of one caller: a block under the lock, or the hook. */
  datatype Step =
    | Enter(t: nat)
    | RunHook(t: nat, success: bool)
    | Publish(t: nat)
    | Raise(t: nat)

  // ----- Steps -----

  predicate Enabled(w: World, s: Step) {
    s.t < |w.callers| &&
    match s
    case Enter(t) => w.callers[t] == Outside || w.callers[t] == Woken
    case RunHook(t, _) => w.callers[t] == Executing
    case Publish(t) => w.callers[t].Holding?
    case Raise(t) => w.callers[t] == Executing
  }

  /** Under the lock: sleep while the setup runs, return a published result, or claim the setup. */
  function AfterEnter(w: World, t: nat): World
    requires t < |w.callers|
  {
    match w.state
    case Running => w.(callers := w.callers[t := Waiting])
    case Succeeded => w.(callers := w.callers[t := Returned(true)])
    case Failed => w.(callers := w.callers[t := Returned(false)])
    case NotStarted => w.(callers := w.callers[t := Executing], state := Running)
  }

  /** Everyone asleep is woken. */
  function NotifyAll(callers: seq<Caller>): (r: seq<Caller>)
    ensures |r| == |callers|
    ensures forall i :: 0 <= i < |r| ==> r[i] == if callers[i] == Waiting then Woken else callers[i]
  {
    seq(|callers|, i requires 0 <= i < |callers| => if callers[i] == Waiting then Woken else callers[i])
  }

  function AfterPublish(w: World, t: nat, success: bool): World
    requires t < |w.callers|
  {
    World(if success then Succeeded else Failed, Some(success),
          NotifyAll(w.callers[t := Returned(success)]), w.setups)
  }

  function After(w: World, s: Step): World
    requires Enabled(w, s)
  {
    match s
    case Enter(t) => AfterEnter(w, t)
    case RunHook(t, success) => w.(callers := w.callers[t := Holding(success)], setups := w.setups + 1)
    case Publish(t) => AfterPublish(w, t, w.callers[t].success)
    case Raise(t) => w.(callers := w.callers[t := Died], setups := w.setups + 1)
  }

  // ----- The same steps as methods of the executor -----

  class Executor {
    var environmentState: EnvironmentState
    var environmentResult: Option<bool>
    var callers: seq<Caller>
    var setups: nat

    ghost function Model(): World
      reads this
    {
      World(environmentState, environmentResult, callers, setups)
    }

    constructor (n: nat)
      ensures Model() == World(NotStarted, None, seq(n, i => Outside), 0)
    {
      environmentState, environmentResult, callers, setups := NotStarted, None, seq(n, i => Outside), 0;
    }

    /** The first block under the lock, entered anew after every wake-up. */
    method EnterBlock(t: nat)
      requires Enabled(Model(), Enter(t))
      modifies this
      ensures Model() == After(old(Model()), Enter(t))
    {
      if environmentState == Running {
        callers := callers[t := Waiting];
      } else if environmentState == Succeeded {
        callers := callers[t := Returned(true)];
      } else if environmentState == Failed {
        callers := callers[t := Returned(false)];
      } else {
        environmentState := Running;
        callers := callers[t := Executing];
      }
    }

    /** The hook, outside the lock; a skipped hook counts as a success. */
    method SetupBlock(t: nat, success: bool)
      requires Enabled(Model(), RunHook(t, success))
      modifies this
      ensures Model() == After(old(Model()), RunHook(t, success))
    {
      setups := setups + 1;
      callers := callers[t := Holding(success)];
    }

    /** The second block under the lock: publish, wake everyone, return. */
    method PublishBlock(t: nat)
      requires Enabled(Model(), Publish(t))
      modifies this
      ensures Model() == After(old(Model()), Publish(t))
    {
      var success := callers[t].success;
      environmentResult := Some(success);
      environmentState := if success then Succeeded else Failed;
      callers := NotifyAll(callers[t := Returned(success)]);
    }
  }

  // ----- The invariant -----

  predicate Owner(c: Caller) {
    c == Executing || c.Holding? || c == Died
  }

  /** What one caller may be at, given the shared state. */
  predicate Fits(w: World, c: Caller) {
    match w.state
    case NotStarted => c == Outside
    case Running => c == Outside || c == Waiting || Owner(c)
    case Succeeded => c == Outside || c == Woken || c == Returned(true)
    case Failed => c == Outside || c == Woken || c == Returned(false)
  }

  predicate AllFit(w: World) {
    forall i :: 0 <= i < |w.callers| ==> Fits(w, w.callers[i])
  }

  predicate OneOwner(w: World) {
    forall i, j :: 0 <= i < |w.callers| && 0 <= j < |w.callers| && Owner(w.callers[i]) && Owner(w.callers[j]) ==> i == j
  }

  predicate Inv(w: World) {
    && AllFit(w) && OneOwner(w)
    && (w.state == Running ==> exists i :: 0 <= i < |w.callers| && Owner(w.callers[i]))
    && (w.result == match w.state
                    case Succeeded => Some(true)
                    case Failed => Some(false)
                    case _ => None)
    && (w.state == NotStarted ==> w.setups == 0)
    && w.setups <= 1
    && (w.setups == 1 ==> forall i :: 0 <= i < |w.callers| ==> w.callers[i] != Executing)
  }

  predicate Initial(w: World) {
    && w.state == NotStarted && w.result == None && w.setups == 0
    && forall i :: 0 <= i < |w.callers| ==> w.callers[i] == Outside
  }

  lemma InitialInv(w: World)
    requires Initial(w)
    ensures Inv(w)
  {
  }

  lemma EnterInv(w: World, t: nat)
    requires Inv(w) && Enabled(w, Enter(t))
    ensures Inv(AfterEnter(w, t))
  {
    var v := AfterEnter(w, t);
    if w.state == NotStarted {
      assert v.callers[t] == Executing;
    } else if w.state == Running {
      var i :| 0 <= i < |w.callers| && Owner(w.callers[i]);
      assert v.callers[i] == w.callers[i];
    }
  }

  lemma HookInv(w: World, t: nat, c: Caller)
    requires Inv(w) && t < |w.callers| && w.callers[t] == Executing && (c.Holding? || c == Died)
    ensures Inv(w.(callers := w.callers[t := c], setups := w.setups + 1))
  {
    var v := w.(callers := w.callers[t := c], setups := w.setups + 1);
    assert Fits(w, w.callers[t]);
    assert Owner(v.callers[t]);
  }

  lemma PublishInv(w: World, t: nat)
    requires Inv(w) && Enabled(w, Publish(t))
    ensures Inv(After(w, Publish(t)))
  {
    assert Fits(w, w.callers[t]);
    var v := After(w, Publish(t));
    forall i | 0 <= i < |v.callers|
      ensures Fits(v, v.callers[i]) && !Owner(v.callers[i])
    {
      assert Fits(w, w.callers[i]);
    }
  }

  /** Every step of every caller keeps the invariant. */
  lemma StepInv(w: World, s: Step)
    requires Inv(w) && Enabled(w, s)
    ensures Inv(After(w, s))
  {
    match s
    case Enter(t) => EnterInv(w, t);
    case RunHook(t, success) => HookInv(w, t, Holding(success));
    case Publish(t) => PublishInv(w, t);
    case Raise(t) => HookInv(w, t, Died);
  }

  // ----- Schedules -----

  /** The world after a schedule of steps; nothing when some step was not enabled. */
  function AfterAll(w: World, steps: seq<Step>): Option<World> {
    if steps == [] then Some(w)
    else
      var before := AfterAll(w, steps[..|steps| - 1]);
      if before.Some? && Enabled(before.value, steps[|steps| - 1])
      then Some(After(before.value, steps[|steps| - 1])) else None
  }

  lemma {:induction false} ReachedInv(w: World, steps: seq<Step>)
    requires Initial(w) && AfterAll(w, steps).Some?
    ensures Inv(AfterAll(w, steps).value)
  {
    if steps == [] {
      InitialInv(w);
    } else {
      ReachedInv(w, steps[..|steps| - 1]);
      StepInv(AfterAll(w, steps[..|steps| - 1]).value, steps[|steps| - 1]);
    }
  }

  /** Under every schedule the hook runs at most once, and all callers that returned agree with the result. */
  lemma {:induction false} SetupOnce(w: World, steps: seq<Step>, i: nat)
    requires Initial(w) && AfterAll(w, steps).Some? && i < |AfterAll(w, steps).value.callers|
    ensures var v := AfterAll(w, steps).value;
            && v.setups <= 1
            && (v.callers[i].Returned? ==> v.result == Some(v.callers[i].success))
  {
    ReachedInv(w, steps);
    var v := AfterAll(w, steps).value;
    assert Fits(v, v.callers[i]);
  }

  lemma TerminalStep(w: World, s: Step)
    requires Inv(w) && Enabled(w, s) && (w.state == Succeeded || w.state == Failed)
    ensures After(w, s).state == w.state && After(w, s).result == w.result && After(w, s).setups == w.setups
  {
    assert Fits(w, w.callers[s.t]);
  }

  /** Once published, the state and the result never change. */
  lemma {:induction false} TerminalStays(w: World, steps: seq<Step>, more: seq<Step>)
    requires Initial(w) && AfterAll(w, steps + more).Some?
    ensures AfterAll(w, steps).Some?
    ensures var u, v := AfterAll(w, steps).value, AfterAll(w, steps + more).value;
            u.state == Succeeded || u.state == Failed ==>
              v.state == u.state && v.result == u.result && v.setups == u.setups
    decreases |more|
  {
    if more == [] {
      assert steps + more == steps;
    } else {
      var head := more[..|more| - 1];
      assert (steps + more)[..|steps + more| - 1] == steps + head;
      TerminalStays(w, steps, head);
      ReachedInv(w, steps + head);
      var mid := AfterAll(w, steps + head).value;
      if mid.state == Succeeded || mid.state == Failed {
        TerminalStep(mid, more[|more| - 1]);
      }
    }
  }

  // ----- Termination and no lost waiter -----

  function Rank(c: Caller): nat {
    match c
    case Outside => 4
    case Waiting => 3
    case Woken => 2
    case Executing => 3
    case Holding(_) => 2
    case Returned(_) => 0
    case Died => 0
  }

  function Ranks(callers: seq<Caller>): nat {
    if callers == [] then 0 else Ranks(callers[..|callers| - 1]) + Rank(callers[|callers| - 1])
  }

  lemma {:induction false} RanksUpdate(callers: seq<Caller>, t: nat, c: Caller)
    requires t < |callers|
    ensures Ranks(callers[t := c]) == Ranks(callers) - Rank(callers[t]) + Rank(c)
  {
    var u := callers[t := c];
    if t == |callers| - 1 {
      assert u[..|u| - 1] == callers[..|callers| - 1];
    } else {
      assert u[..|u| - 1] == callers[..|callers| - 1][t := c];
      RanksUpdate(callers[..|callers| - 1], t, c);
    }
  }

  lemma {:induction false} RanksNotify(callers: seq<Caller>)
    ensures Ranks(NotifyAll(callers)) <= Ranks(callers)
  {
    if callers != [] {
      var n := NotifyAll(callers);
      assert n[..|n| - 1] == NotifyAll(callers[..|callers| - 1]);
      RanksNotify(callers[..|callers| - 1]);
    }
  }

  lemma EnterLowersRanks(w: World, t: nat)
    requires Inv(w) && Enabled(w, Enter(t))
    ensures Ranks(AfterEnter(w, t).callers) < Ranks(w.callers)
  {
    assert Fits(w, w.callers[t]);
    var c := AfterEnter(w, t).callers[t];
    assert Rank(c) < Rank(w.callers[t]);
    RanksUpdate(w.callers, t, c);
  }

  lemma PublishLowersRanks(w: World, t: nat)
    requires Enabled(w, Publish(t))
    ensures Ranks(After(w, Publish(t)).callers) < Ranks(w.callers)
  {
    var r := Returned(w.callers[t].success);
    RanksUpdate(w.callers, t, r);
    RanksNotify(w.callers[t := r]);
  }

  /** Every step brings some caller closer to its end. */
  lemma StepLowersRanks(w: World, s: Step)
    requires Inv(w) && Enabled(w, s)
    ensures Ranks(After(w, s).callers) < Ranks(w.callers)
  {
    match s
    case Enter(t) => EnterLowersRanks(w, t);
    case RunHook(t, success) => RanksUpdate(w.callers, t, Holding(success));
    case Publish(t) => PublishLowersRanks(w, t);
    case Raise(t) => RanksUpdate(w.callers, t, Died);
  }

  lemma {:induction false} RanksBounded(callers: seq<Caller>)
    ensures Ranks(callers) <= 4 * |callers|
  {
    if callers != [] {
      RanksBounded(callers[..|callers| - 1]);
    }
  }

  /** No schedule takes more than four steps a caller. */
  lemma {:induction false} SchedulesAreShort(w: World, steps: seq<Step>)
    requires Initial(w) && AfterAll(w, steps).Some?
    ensures |steps| + Ranks(AfterAll(w, steps).value.callers) <= 4 * |w.callers|
  {
    if steps == [] {
      RanksBounded(w.callers);
    } else {
      SchedulesAreShort(w, steps[..|steps| - 1]);
      ReachedInv(w, steps[..|steps| - 1]);
      StepLowersRanks(AfterAll(w, steps[..|steps| - 1]).value, steps[|steps| - 1]);
    }
  }

  ghost predicate Finished(w: World) {
    forall s :: !Enabled(w, s)
  }

  /**
   * No waiter is lost: when no step is left, every caller has returned the published result, unless
   * the hook let an exception through, and then nobody has returned.
   */
  lemma {:induction false} NobodyWaitsForever(w: World, steps: seq<Step>, i: nat)
    requires Initial(w) && AfterAll(w, steps).Some? && Finished(AfterAll(w, steps).value)
    requires i < |AfterAll(w, steps).value.callers|
    ensures var v := AfterAll(w, steps).value;
            if exists j :: 0 <= j < |v.callers| && v.callers[j] == Died
            then v.state == Running && (v.callers[i] == Died || v.callers[i] == Waiting)
            else v.callers[i].Returned? && v.result == Some(v.callers[i].success)
  {
    ReachedInv(w, steps);
    var v := AfterAll(w, steps).value;
    forall k | 0 <= k < |v.callers|
      ensures Fits(v, v.callers[k])
      ensures v.callers[k] == Waiting || v.callers[k].Returned? || v.callers[k] == Died
    {
      assert !Enabled(v, Enter(k)) && !Enabled(v, RunHook(k, true)) && !Enabled(v, Publish(k));
    }
  }

  /** Two callers: the first claims the setup, the second falls asleep, and the hook lets an exception through. */
  lemma AWaiterIsStranded()
    ensures var w, steps := World(NotStarted, None, [Outside, Outside], 0), [Enter(0), Enter(1), Raise(0)];
            && Initial(w) && AfterAll(w, steps) == Some(World(Running, None, [Died, Waiting], 1))
            && Finished(AfterAll(w, steps).value)
  {
    var w := World(NotStarted, None, [Outside, Outside], 0);
    var w1, w2 := World(Running, None, [Executing, Outside], 0), World(Running, None, [Executing, Waiting], 0);
    assert AfterAll(w, []) == Some(w);
    assert w.callers[0 := Executing] == w1.callers && w1.callers[1 := Waiting] == w2.callers;
    assert w2.callers[0 := Died] == [Died, Waiting];
    assert [Enter(0)][..0] == [] && [Enter(0), Enter(1)][..1] == [Enter(0)];
    assert AfterAll(w, [Enter(0)]) == Some(w1);
    assert AfterAll(w, [Enter(0), Enter(1)]) == Some(w2);
    assert [Enter(0), Enter(1), Raise(0)][..2] == [Enter(0), Enter(1)];
  }
}
