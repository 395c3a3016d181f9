/** Deadline control of a run: the watcher timer, stop requests, and closing, under every interleaving. */
module RunController {
  import opened Prelude

  datatype Reason = Deadline | Other(name: string)

  /**
   * A thread inside the controller: a timer that went off, a stop request before its lock, one that
   * passed it and is about to call back, one whose reason is recorded but whose event is not yet set.
   * `own` tells the controller's callbacks from requests made past it.
   */
  datatype Task = Fired(id: nat) | Asking(reason: Reason) | Calling(reason: Reason, own: bool) | Signalling | Ended

  datatype World = World(
    now: int,
    deadline: int,
    closed: bool,
    deadlineRequested: bool,
    stopSet: bool,
    stopReason: Option<Reason>,
    timer: Option<nat>,
    pending: set<nat>,
    tasks: seq<Task>,
    started: bool,
    schedules: nat,
    deadlineCalls: nat)

  /** One atomic step: a lock block, a clock tick, or a call from outside. */
  datatype Step =
    | Tick(ticks: nat)
    | Start
    | Close
    | Fire(id: nat)
    | OnTimer(k: nat)
    | ShouldStop
    | Ask(reason: Reason)
    | AskBlock(k: nat)
    | Record(k: nat)
    | Signal(k: nat)
    | Outside(reason: Reason)

  predicate TaskIs(w: World, k: nat, c: Kind) {
    k < |w.tasks| && Is(w.tasks[k], c)
  }

  predicate Enabled(w: World, s: Step) {
    match s
    case Fire(id) => id in w.pending
    case OnTimer(k) => TaskIs(w, k, AtTimer)
    case AskBlock(k) => TaskIs(w, k, AtAsk)
    case Record(k) => TaskIs(w, k, AtCall)
    case Signal(k) => TaskIs(w, k, AtSignal)
    case _ => true
  }

  predicate Expired(w: World) {
    w.now >= w.deadline
  }

  /** A new timer takes the place of the old one; timers are numbered in the order they are scheduled. */
  function Scheduled(w: World): World {
    w.(timer := Some(w.schedules), pending := w.pending + {w.schedules}, schedules := w.schedules + 1)
  }

  function SetTask(w: World, k: nat, t: Task): World
    requires k < |w.tasks|
  {
    w.(tasks := w.tasks[k := t])
  }

  function AddTask(w: World, t: Task): World {
    w.(tasks := w.tasks + [t])
  }

  function AfterStart(w: World): World {
    if w.closed || w.timer.Some? then w else Scheduled(w).(started := true)
  }

  function AfterClose(w: World): World {
    w.(closed := true, timer := None, pending := if w.timer.Some? then w.pending - {w.timer.value} else w.pending)
  }

  function AfterOnTimer(w: World, k: nat): World
    requires k < |w.tasks|
  {
    var v := w.(timer := None);
    if v.closed || v.stopSet then SetTask(v, k, Ended)
    else if !Expired(v) then SetTask(Scheduled(v), k, Ended)
    else SetTask(v, k, Asking(Deadline))
  }

  function AfterAsk(w: World, k: nat): World
    requires TaskIs(w, k, AtAsk)
  {
    var r := w.tasks[k].reason;
    if w.closed || w.stopSet || (r == Deadline && w.deadlineRequested) then SetTask(w, k, Ended)
    else SetTask(w, k, Calling(r, true)).(deadlineRequested := w.deadlineRequested || r == Deadline)
  }

  /** The first reason stays. */
  function AfterRecord(w: World, k: nat): World
    requires TaskIs(w, k, AtCall)
  {
    SetTask(w, k, Signalling).(
      stopReason := if w.stopReason == None then Some(w.tasks[k].reason) else w.stopReason,
      deadlineCalls := w.deadlineCalls + (if Is(w.tasks[k], AtDeadlineCall) then 1 else 0))
  }

  function After(w: World, s: Step): World
    requires Enabled(w, s)
  {
    match s
    case Tick(ticks) => w.(now := w.now + ticks)
    case Start => AfterStart(w)
    case Close => AfterClose(w)
    case Fire(id) => AddTask(w.(pending := w.pending - {id}), Fired(id))
    case OnTimer(k) => AfterOnTimer(w, k)
    case ShouldStop => if !w.stopSet && Expired(w) then AddTask(w, Asking(Deadline)) else w
    case Ask(reason) => AddTask(w, Asking(reason))
    case AskBlock(k) => AfterAsk(w, k)
    case Record(k) => AfterRecord(w, k)
    case Signal(k) => SetTask(w, k, Ended).(stopSet := true)
    case Outside(reason) => AddTask(w, Calling(reason, false))
  }

  // ----- Counting tasks -----

  datatype Kind = AtTimer | AtAsk | AtDeadlineAsk | AtCall | AtDeadlineCall | AtSignal

  predicate Is(t: Task, c: Kind) {
    match c
    case AtTimer => t.Fired?
    case AtAsk => t.Asking?
    case AtDeadlineAsk => t == Asking(Deadline)
    case AtCall => t.Calling?
    case AtDeadlineCall => t == Calling(Deadline, true)
    case AtSignal => t.Signalling?
  }

  function One(t: Task, c: Kind): nat {
    if Is(t, c) then 1 else 0
  }

  function Count(tasks: seq<Task>, c: Kind): nat {
    if tasks == [] then 0 else Count(tasks[..|tasks| - 1], c) + One(tasks[|tasks| - 1], c)
  }

  lemma {:induction false} CountSet(tasks: seq<Task>, k: nat, t: Task, c: Kind)
    requires k < |tasks|
    ensures Count(tasks[k := t], c) + One(tasks[k], c) == Count(tasks, c) + One(t, c)
  {
    var u := tasks[k := t];
    if k == |tasks| - 1 {
      assert u[..|u| - 1] == tasks[..|tasks| - 1];
    } else {
      assert u[..|u| - 1] == tasks[..|tasks| - 1][k := t];
      CountSet(tasks[..|tasks| - 1], k, t, c);
    }
  }

  lemma {:induction false} CountAdd(tasks: seq<Task>, t: Task, c: Kind)
    ensures Count(tasks + [t], c) == Count(tasks, c) + One(t, c)
  {
    assert (tasks + [t])[..|tasks|] == tasks;
  }

  /** All counts at once. */
  datatype Counts = Counts(timer: nat, deadlineAsk: nat, call: nat, deadlineCall: nat, signal: nat)

  function Tally(tasks: seq<Task>): Counts {
    Counts(Count(tasks, AtTimer), Count(tasks, AtDeadlineAsk), Count(tasks, AtCall), Count(tasks, AtDeadlineCall),
           Count(tasks, AtSignal))
  }

  function Tally1(t: Task): Counts {
    Counts(One(t, AtTimer), One(t, AtDeadlineAsk), One(t, AtCall), One(t, AtDeadlineCall), One(t, AtSignal))
  }

  predicate Sum(a: Counts, b: Counts, c: Counts, d: Counts) {
    && a.timer + b.timer == c.timer + d.timer && a.deadlineAsk + b.deadlineAsk == c.deadlineAsk + d.deadlineAsk
    && a.call + b.call == c.call + d.call && a.deadlineCall + b.deadlineCall == c.deadlineCall + d.deadlineCall
    && a.signal + b.signal == c.signal + d.signal
  }

  lemma TallySet(tasks: seq<Task>, k: nat, t: Task)
    requires k < |tasks|
    ensures Sum(Tally(tasks[k := t]), Tally1(tasks[k]), Tally(tasks), Tally1(t))
  {
    CountSet(tasks, k, t, AtTimer);
    CountSet(tasks, k, t, AtDeadlineAsk);
    CountSet(tasks, k, t, AtCall);
    CountSet(tasks, k, t, AtDeadlineCall);
    CountSet(tasks, k, t, AtSignal);
  }

  lemma TallyAdd(tasks: seq<Task>, t: Task)
    ensures Sum(Tally(tasks + [t]), Tally1(Ended), Tally(tasks), Tally1(t))
  {
    CountAdd(tasks, t, AtTimer);
    CountAdd(tasks, t, AtDeadlineAsk);
    CountAdd(tasks, t, AtCall);
    CountAdd(tasks, t, AtDeadlineCall);
    CountAdd(tasks, t, AtSignal);
  }

  // ----- The invariant -----

  /** At most one deadline callback, made or on its way, and one that was made leads to the stop event. */
  predicate CallbackInv(w: World, n: Counts) {
    && w.deadlineCalls + n.deadlineCall == (if w.deadlineRequested then 1 else 0)
    && (w.deadlineCalls == 1 ==> w.stopSet || n.signal > 0)
    && (w.stopSet || n.signal > 0 ==> w.stopReason.Some?)
  }

  /** At most one timer, waiting or gone off, and none waiting after closing. */
  predicate TimerInv(w: World, n: Counts) {
    if w.closed then w.timer == None && w.pending == {}
    else if w.timer == None then w.pending == {} && n.timer == 0
    else
      && w.timer.value < w.schedules
      && ((w.pending == {w.timer.value} && n.timer == 0) || (w.pending == {} && n.timer == 1))
  }

  /** A started watcher is never lost: a timer, a request on its way, or the stop event is there. */
  predicate WatchInv(w: World, n: Counts) {
    w.started && !w.closed ==> w.timer.Some? || w.stopSet || n.deadlineAsk + n.call + n.signal > 0
  }

  predicate Inv(w: World) {
    var n := Tally(w.tasks);
    CallbackInv(w, n) && TimerInv(w, n) && WatchInv(w, n)
  }

  predicate Initial(w: World) {
    && !w.closed && !w.deadlineRequested && !w.stopSet && w.stopReason == None && w.timer == None && w.pending == {}
    && w.tasks == [] && !w.started && w.schedules == 0 && w.deadlineCalls == 0
  }

  lemma {:induction false} CountIsPresent(tasks: seq<Task>, k: nat, c: Kind)
    requires k < |tasks| && Is(tasks[k], c)
    ensures Count(tasks, c) > 0
  {
    CountSet(tasks, k, Ended, c);
  }

  lemma {:induction false} DeadlineCallsAreCalls(tasks: seq<Task>)
    ensures Count(tasks, AtDeadlineCall) <= Count(tasks, AtCall)
  {
    if tasks != [] {
      DeadlineCallsAreCalls(tasks[..|tasks| - 1]);
    }
  }

  lemma OnTimerInv(w: World, k: nat)
    requires Inv(w) && TaskIs(w, k, AtTimer)
    ensures Inv(AfterOnTimer(w, k))
  {
    CountIsPresent(w.tasks, k, AtTimer);
    if w.closed || w.stopSet || !Expired(w) {
      TallySet(w.tasks, k, Ended);
    } else {
      TallySet(w.tasks, k, Asking(Deadline));
    }
  }

  lemma RefusedInv(w: World, k: nat)
    requires Inv(w) && TaskIs(w, k, AtAsk)
    requires w.closed || w.stopSet || (w.tasks[k].reason == Deadline && w.deadlineRequested)
    ensures Inv(SetTask(w, k, Ended))
  {
    DeadlineCallsAreCalls(w.tasks);
    TallySet(w.tasks, k, Ended);
  }

  lemma AskInv(w: World, k: nat)
    requires Inv(w) && TaskIs(w, k, AtAsk)
    ensures Inv(AfterAsk(w, k))
  {
    var r := w.tasks[k].reason;
    if w.closed || w.stopSet || (r == Deadline && w.deadlineRequested) {
      RefusedInv(w, k);
    } else {
      TallySet(w.tasks, k, Calling(r, true));
    }
  }

  lemma RecordInv(w: World, k: nat)
    requires Inv(w) && TaskIs(w, k, AtCall)
    ensures Inv(AfterRecord(w, k))
  {
    TallySet(w.tasks, k, Signalling);
  }

  lemma SignalInv(w: World, k: nat)
    requires Inv(w) && TaskIs(w, k, AtSignal)
    ensures Inv(SetTask(w, k, Ended).(stopSet := true))
  {
    CountIsPresent(w.tasks, k, AtSignal);
    TallySet(w.tasks, k, Ended);
  }

  lemma FireInv(w: World, id: nat)
    requires Inv(w) && id in w.pending
    ensures Inv(AddTask(w.(pending := w.pending - {id}), Fired(id)))
  {
    TallyAdd(w.tasks, Fired(id));
    assert w.pending - {id} == {};
  }

  lemma SpawnInv(w: World, t: Task)
    requires Inv(w) && (t.Asking? || (t.Calling? && !t.own))
    ensures Inv(AddTask(w, t))
  {
    TallyAdd(w.tasks, t);
  }

  /** Every step of every thread keeps the invariant. */
  lemma StepInv(w: World, s: Step)
    requires Inv(w) && Enabled(w, s)
    ensures Inv(After(w, s))
  {
    match s
    case Tick(_) =>
    case Start =>
    case Close =>
    case Fire(id) => FireInv(w, id);
    case OnTimer(k) => OnTimerInv(w, k);
    case ShouldStop => SpawnInv(w, Asking(Deadline));
    case Ask(reason) => SpawnInv(w, Asking(reason));
    case AskBlock(k) => AskInv(w, k);
    case Record(k) => RecordInv(w, k);
    case Signal(k) => SignalInv(w, k);
    case Outside(reason) => SpawnInv(w, Calling(reason, false));
  }

  // ----- Schedules -----

  /** The world after a schedule of steps; nothing when some step was not enabled. */
  function AfterAll(w: World, steps: seq<Step>): Option<World> {
    if steps == [] then Some(w)
    else
      var before := AfterAll(w, steps[..|steps| - 1]);
      if before.Some? && Enabled(before.value, steps[|steps| - 1])
      then Some(After(before.value, steps[|steps| - 1])) else None
  }

  lemma {:induction false} ReachedInv(w: World, steps: seq<Step>)
    requires Initial(w) && AfterAll(w, steps).Some?
    ensures Inv(AfterAll(w, steps).value)
  {
    if steps != [] {
      ReachedInv(w, steps[..|steps| - 1]);
      StepInv(AfterAll(w, steps[..|steps| - 1]).value, steps[|steps| - 1]);
    }
  }

  /** Under every schedule the controller makes at most one deadline callback and has at most one timer. */
  lemma {:induction false} OneCallbackOneTimer(w: World, steps: seq<Step>)
    requires Initial(w) && AfterAll(w, steps).Some?
    ensures var v := AfterAll(w, steps).value;
            && v.deadlineCalls + Count(v.tasks, AtDeadlineCall) <= 1
            && |v.pending| <= 1 && (v.closed ==> v.pending == {})
            && (!v.closed ==> |v.pending| + Count(v.tasks, AtTimer) <= 1)
  {
    ReachedInv(w, steps);
  }

  /** What later steps never take back. */
  predicate Keeps(u: World, v: World) {
    && (u.closed ==> v.closed && v.schedules == u.schedules)
    && (u.stopReason.Some? ==> v.stopReason == u.stopReason)
    && (u.stopSet ==> v.stopSet)
    && (u.deadlineRequested ==> v.deadlineRequested)
  }

  lemma StepKeeps(w: World, s: Step)
    requires Enabled(w, s)
    ensures Keeps(w, After(w, s))
  {
  }

  lemma KeepsOn(t: World, u: World, v: World)
    requires Keeps(t, u) && Keeps(u, v)
    ensures Keeps(t, v)
  {
  }

  /** After closing no timer is scheduled, the first stop reason stays, and the stop event stays set. */
  lemma {:induction false} NothingIsTakenBack(w: World, steps: seq<Step>, more: seq<Step>)
    requires AfterAll(w, steps + more).Some?
    ensures AfterAll(w, steps).Some?
    ensures Keeps(AfterAll(w, steps).value, AfterAll(w, steps + more).value)
    decreases |more|
  {
    if more == [] {
      assert steps + more == steps;
    } else {
      var head := more[..|more| - 1];
      assert (steps + more)[..|steps + more| - 1] == steps + head;
      NothingIsTakenBack(w, steps, head);
      var mid := AfterAll(w, steps + head).value;
      StepKeeps(mid, more[|more| - 1]);
      KeepsOn(AfterAll(w, steps).value, mid, After(mid, more[|more| - 1]));
    }
  }

  /**
   * A started watcher ends in a stop: when it was not closed and nothing is left to happen, the stop
   * event is set, and its reason is recorded.
   */
  lemma {:induction false} WatcherIsNotLost(w: World, steps: seq<Step>)
    requires Initial(w) && AfterAll(w, steps).Some?
    requires var v := AfterAll(w, steps).value;
             v.started && !v.closed && v.pending == {} && forall k :: 0 <= k < |v.tasks| ==> v.tasks[k] == Ended
    ensures AfterAll(w, steps).value.stopSet && AfterAll(w, steps).value.stopReason.Some?
  {
    ReachedInv(w, steps);
    AllEnded(AfterAll(w, steps).value.tasks);
  }

  lemma {:induction false} AllEnded(tasks: seq<Task>)
    requires forall k :: 0 <= k < |tasks| ==> tasks[k] == Ended
    ensures Tally(tasks) == Tally([])
  {
    if tasks != [] {
      AllEnded(tasks[..|tasks| - 1]);
    }
  }

  // ----- The same blocks as methods of the controller -----

  class Controller {
    const deadline: int
    var now: int
    var closed: bool
    var deadlineRequested: bool
    var stopSet: bool
    var stopReason: Option<Reason>
    var timer: Option<nat>
    var pending: set<nat>
    var tasks: seq<Task>
    var started: bool
    var schedules: nat
    var deadlineCalls: nat

    ghost function Model(): World
      reads this
    {
      World(now, deadline, closed, deadlineRequested, stopSet, stopReason, timer, pending, tasks, started, schedules,
            deadlineCalls)
    }

    /** The deadline is fixed once; a duration must be positive. */
    constructor (now: int, duration: int)
      requires duration > 0
      ensures Initial(Model()) && Model().deadline == now + duration && Model().now == now
    {
      this.now, deadline := now, now + duration;
      closed, deadlineRequested, stopSet, stopReason := false, false, false, None;
      timer, pending, tasks, started, schedules, deadlineCalls := None, {}, [], false, 0, 0;
    }

    method ScheduleLocked()
      modifies this
      ensures Model() == Scheduled(old(Model()))
    {
      var id := schedules;
      schedules := schedules + 1;
      timer := Some(id);
      pending := pending + {id};
    }

    method StartBlock()
      modifies this
      ensures Model() == After(old(Model()), Start)
    {
      if closed || timer != None {
        return;
      }
      ScheduleLocked();
      started := true;
    }

    method CloseBlock()
      modifies this
      ensures Model() == After(old(Model()), Close)
    {
      closed := true;
      if timer != None {
        pending := pending - {timer.value};
        timer := None;
      }
    }

    method OnTimerBlock(k: nat)
      requires Enabled(Model(), OnTimer(k))
      modifies this
      ensures Model() == After(old(Model()), OnTimer(k))
    {
      timer := None;
      if closed || stopSet {
        tasks := tasks[k := Ended];
        return;
      }
      if !(now >= deadline) {
        ScheduleLocked();
        tasks := tasks[k := Ended];
        return;
      }
      tasks := tasks[k := Asking(Deadline)];
    }

    method RequestStopBlock(k: nat)
      requires Enabled(Model(), AskBlock(k))
      modifies this
      ensures Model() == After(old(Model()), AskBlock(k))
    {
      var reason := tasks[k].reason;
      if closed || stopSet {
        tasks := tasks[k := Ended];
        return;
      }
      if reason == Deadline {
        if deadlineRequested {
          tasks := tasks[k := Ended];
          return;
        }
        deadlineRequested := true;
      }
      tasks := tasks[k := Calling(reason, true)];
    }

    /** The callback's block under the analyzer's lock. */
    method RecordBlock(k: nat)
      requires Enabled(Model(), Record(k))
      modifies this
      ensures Model() == After(old(Model()), Record(k))
    {
      if stopReason == None {
        stopReason := Some(tasks[k].reason);
      }
      deadlineCalls := deadlineCalls + One(tasks[k], AtDeadlineCall);
      tasks := tasks[k := Signalling];
    }
  }
}
