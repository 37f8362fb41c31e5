/**
 * Whole runs of the scheduler of FreeRTOS/Source/tasks.c: any sequence of ticks, delays,
 * waits on event lists, events, suspensions, resumptions, context switches and changes of
 * an inherited priority.
 */
module SchedulerRun {
  import KernelList
  import opened Scheduler

  // ---------------------------------------------------------------------- steps

  datatype Step =
    | Tick
    | Delay(ticks: nat)
    | Wait(ticks: nat)
    | Event(t: Task)
    | Suspend
    | Resume
    | Switch
    | Inherit(t: Task, p: nat)
    | Create(t: Task, p: nat)

  /** What a step asks of the state; the idle task never blocks and a task blocks only while it is ready. */
  ghost predicate Enabled(s: State, g: Ledger, step: Step) {
    match step
    case Delay(n) => 1 <= n < WRAP && s.current != s.idle && s.current in g.place && g.place[s.current].Ready?
    case Wait(n) => 1 <= n < WRAP && s.current != s.idle && s.current in g.place && g.place[s.current].Ready?
    case Event(t) => t in s.waiting
    case Resume => s.lock > 0
    case Inherit(t, p) => t in g.place && p < |s.ready|
    case Create(t, p) => t !in s.prio && p < |s.ready|
    case _ => true
  }

  ghost function After(s: State, g: Ledger, step: Step): (State, Ledger)
    requires Inv(s, g) && Enabled(s, g, step)
  {
    StepDefined(s, g, step);
    match step
    case Tick => (IncrementTick(s), if s.lock > 0 then g else Ticked(s, g))
    case Delay(n) => (Block(s, n, false), Blocked(s, g, n, false))
    case Wait(n) => (Block(s, n, true).(waiting := s.waiting + {s.current}), Blocked(s, g, n, true))
    case Event(t) =>
      (RemoveFromEvent(s, t), if s.lock == 0 then g.(place := g.place[t := Ready(s.prio[t])]) else g)
    case Suspend => (SuspendAll(s), g)
    case Resume => (ResumeAll(s), Resumed(s, g))
    case Switch => (SwitchContext(s), g)
    case Inherit(t, p) => (Reprioritise(s, t, p), Moved(s, g, t, p))
    case Create(t, p) => (Introduce(s, t, p), g.(place := g.place[t := Ready(p)]))
  }

  lemma {:induction false} StepDefined(s: State, g: Ledger, step: Step)
    requires Inv(s, g) && Enabled(s, g, step)
    ensures Sized(s) && s.current in s.prio && (forall t :: t in s.pending ==> t in s.prio)
    ensures step.Delay? || step.Wait? ==> s.current in s.ready[s.prio[s.current]].items
    ensures step.Event? || step.Inherit? ==> step.t in g.place && step.t in s.prio
    ensures s.topReady < |s.ready| && AnyReady(s)
  {
    hide SleepersOk, KernelList.NoDup;
    InvFacts(s, g);
    IdleIsReady(s, g);
    if step.Delay? || step.Wait? {
      InReady(s, g, s.current);
    }
  }

  lemma {:induction false} RunningNotPending(s: State, g: Ledger)
    requires Inv(s, g) && s.current in g.place && g.place[s.current].Ready?
    ensures s.current !in s.pending
  {
  }

  /** Every step of the scheduler keeps every task in exactly one list, the right one. */
  lemma {:induction false} StepInv(s: State, g: Ledger, step: Step)
    requires Inv(s, g) && Enabled(s, g, step)
    ensures Inv(After(s, g, step).0, After(s, g, step).1)
  {
    hide Inv, Basic, Reprioritise, Introduce, ResumeAll, Resumed, SwitchContext, RemoveFromEvent;
    StepDefined(s, g, step);
    match step
    case Tick =>
      if s.lock > 0 {
        MoreTicks(s, g);
      } else {
        TickExact(s, g);
      }
    case Delay(n) =>
      BlockInv(s, g, n, false);
    case Wait(n) =>
      BlockInv(s, g, n, true);
      RunningNotPending(s, g);
      NowWaiting(Block(s, n, true), Blocked(s, g, n, true), s.current);
    case Event(t) =>
      RemoveFromEventInv(s, g, t);
    case Suspend =>
      LockAny(s, g, s.lock + 1);
    case Resume =>
      ResumeExact(s, g);
    case Switch =>
      SwitchExact(s, g);
    case Inherit(t, p) =>
      ReprioritiseInv(s, g, t, p);
    case Create(t, p) =>
      IntroduceInv(s, g, t, p);
  }

  // ----------------------------------------------------------------------- runs

  /** Every step of the run is enabled in the state it finds. */
  ghost predicate RunOk(s: State, g: Ledger, steps: seq<Step>)
    requires Inv(s, g)
    decreases |steps|
  {
    steps == [] ||
    (Enabled(s, g, steps[0]) &&
     (StepInv(s, g, steps[0]);
      var (s1, g1) := After(s, g, steps[0]);
      RunOk(s1, g1, steps[1..])))
  }

  /** Where a run ends. */
  ghost function End(s: State, g: Ledger, steps: seq<Step>): (r: (State, Ledger))
    requires Inv(s, g) && RunOk(s, g, steps)
    ensures Inv(r.0, r.1)
    decreases |steps|
  {
    if steps == [] then (s, g)
    else
      StepInv(s, g, steps[0]);
      var (s1, g1) := After(s, g, steps[0]);
      End(s1, g1, steps[1..])
  }

  /** A sleeper that no event has been signalled to. */
  ghost predicate Dozing(s: State, g: Ledger, t: Task, due: nat) {
    t in g.place && Asleep(g.place[t]) && t !in s.pending && t in g.due && g.due[t] == due
  }

  /**
   * Unless a step signals an event to it, a sleeper goes on sleeping while its time has not
   * come, and is in the ready list of its priority after the step that brings its time.
   */
  ghost predicate Punctual(s: State, g: Ledger, t: Task, due: nat) {
    if g.now < due then Dozing(s, g, t, due) else t in g.place && t in s.prio && g.place[t] == Ready(s.prio[t])
  }

  lemma {:induction false} PlacedByRank(s: State, g: Ledger, t: Task)
    requires Inv(s, g) && t in g.place
    ensures t in s.prio && (g.place[t].Ready? ==> g.place[t] == Ready(s.prio[t]))
  {
  }

  lemma {:induction false} NonePending(s: State, g: Ledger)
    requires Inv(s, g) && s.lock == 0
    ensures s.pending == []
  {
  }

  lemma {:induction false} TickPunctual(s: State, g: Ledger, t: Task, due: nat)
    requires Inv(s, g) && Dozing(s, g, t, due)
    ensures var (s1, g1) := After(s, g, Tick); Punctual(s1, g1, t, due)
  {
    hide Basic, TickDue, TurnTick;
    SleepersAreDueLater(s, g, t);
    PlacedByRank(s, g, t);
    StepDefined(s, g, Tick);
    IncrementKeeps(s);
  }

  lemma {:induction false} ResumePunctual(s: State, g: Ledger, t: Task, due: nat)
    requires Inv(s, g) && Dozing(s, g, t, due) && s.lock > 0
    ensures var (s1, g1) := After(s, g, Resume); Punctual(s1, g1, t, due)
  {
    hide Basic, Drain, Replay, Replayed, Drained;
    SleepersAreDueLater(s, g, t);
    StepDefined(s, g, Resume);
    ResumeExact(s, g);
    StepInv(s, g, Resume);
    var (s1, g1) := After(s, g, Resume);
    PlacedByRank(s1, g1, t);
    if s.lock == 1 {
      NonePending(s1, g1);
    }
  }

  /** The steps that neither move time nor resume. */
  lemma {:induction false} OtherPunctual(s: State, g: Ledger, step: Step, t: Task, due: nat)
    requires Inv(s, g) && Enabled(s, g, step) && Dozing(s, g, t, due) && step != Event(t)
    requires !step.Tick? && !step.Resume? && !step.Inherit? && !step.Create?
    ensures var (s1, g1) := After(s, g, step); g1.now == g.now && Dozing(s1, g1, t, due)
  {
    hide Basic, SwitchContext, Sized, Release, RingRemove, AddSleeper;
    StepDefined(s, g, step);
    if step.Switch? {
      SwitchExact(s, g);
      SwitchKeepsPending(s);
    } else if step.Event? {
      EventPending(s, step.t);
    }
  }

  lemma {:induction false} SwitchKeepsPending(s: State)
    requires Sized(s) && s.topReady < |s.ready| && AnyReady(s)
    ensures SwitchContext(s).pending == s.pending
  {
  }

  lemma {:induction false} EventPending(s: State, t: Task)
    requires Sized(s) && t in s.prio && s.current in s.prio
    ensures RemoveFromEvent(s, t).pending == if s.lock == 0 then s.pending else s.pending + [t]
  {
    ReleaseKeeps(s.(waiting := s.waiting - {t}), t);
  }

  lemma {:induction false} InheritPunctual(s: State, g: Ledger, step: Step, t: Task, due: nat)
    requires Inv(s, g) && Enabled(s, g, step) && Dozing(s, g, t, due) && step.Inherit?
    ensures var (s1, g1) := After(s, g, step); g1.now == g.now && Dozing(s1, g1, t, due)
  {
    hide Basic, Sized, RingRemove, RingInsert;
    StepDefined(s, g, step);
  }

  lemma {:induction false} CreatePunctual(s: State, g: Ledger, step: Step, t: Task, due: nat)
    requires Inv(s, g) && Enabled(s, g, step) && Dozing(s, g, t, due) && step.Create?
    ensures var (s1, g1) := After(s, g, step); g1.now == g.now && Dozing(s1, g1, t, due)
  {
    hide Basic, Sized, RingInsert;
    PlacedByRank(s, g, t);
    StepDefined(s, g, step);
  }

  lemma {:induction false} StepPunctual(s: State, g: Ledger, step: Step, t: Task, due: nat)
    requires Inv(s, g) && Enabled(s, g, step) && Dozing(s, g, t, due) && step != Event(t)
    ensures var (s1, g1) := After(s, g, step); Punctual(s1, g1, t, due)
  {
    hide Inv, After, Dozing;
    match step
    case Tick => TickPunctual(s, g, t, due);
    case Resume => ResumePunctual(s, g, t, due);
    case Inherit(u, p) => DueLater(s, g, t, due); InheritPunctual(s, g, step, t, due);
    case Create(u, p) => DueLater(s, g, t, due); CreatePunctual(s, g, step, t, due);
    case _ => DueLater(s, g, t, due); OtherPunctual(s, g, step, t, due);
  }

  lemma {:induction false} DueLater(s: State, g: Ledger, t: Task, due: nat)
    requires Inv(s, g) && Dozing(s, g, t, due)
    ensures g.now < due
  {
    SleepersAreDueLater(s, g, t);
  }

  /** Through a run, up to the first state in which its time has come, the task is where it should be. */
  ghost predicate OnTime(s: State, g: Ledger, steps: seq<Step>, t: Task, due: nat)
    requires Inv(s, g) && RunOk(s, g, steps)
    decreases |steps|
  {
    && Punctual(s, g, t, due)
    && (g.now < due && steps != [] ==>
          (RunStep(s, g, steps);
           var (s1, g1) := After(s, g, steps[0]);
           OnTime(s1, g1, steps[1..], t, due)))
  }

  lemma {:induction false} RunStep(s: State, g: Ledger, steps: seq<Step>)
    requires Inv(s, g) && RunOk(s, g, steps) && steps != []
    ensures Enabled(s, g, steps[0])
    ensures var (s1, g1) := After(s, g, steps[0]);
            Inv(s1, g1) && RunOk(s1, g1, steps[1..]) && End(s, g, steps) == End(s1, g1, steps[1..])
  {
    hide Inv, Enabled, After;
    StepInv(s, g, steps[0]);
  }

  /**
   * Whatever else happens in a run, a task that blocked until `due` and is signalled no event
   * sleeps exactly as long as the time is before `due`, and is ready when that time comes.
   */
  lemma {:induction false} WakesOnTime(s: State, g: Ledger, steps: seq<Step>, t: Task, due: nat)
    requires Inv(s, g) && RunOk(s, g, steps) && Dozing(s, g, t, due) && Event(t) !in steps
    ensures OnTime(s, g, steps, t, due)
    decreases |steps|
  {
    hide Inv, Enabled, After, Dozing, RunOk;
    DueLater(s, g, t, due);
    if steps != [] {
      RunStep(s, g, steps);
      StepPunctual(s, g, steps[0], t, due);
      var (s1, g1) := After(s, g, steps[0]);
      if g1.now < due {
        WakesOnTime(s1, g1, steps[1..], t, due);
      }
    }
  }

  /**
   * A task that delays for n ticks, or waits at most n ticks for an event that does not come,
   * is not ready before n ticks have passed, and is ready then.
   */
  lemma {:induction false} SleepsExactly(s: State, g: Ledger, step: Step, steps: seq<Step>)
    requires Inv(s, g) && Enabled(s, g, step) && (step.Delay? || (step.Wait? && step.ticks != MAX_DELAY))
    ensures var (s1, g1) := After(s, g, step);
            && Inv(s1, g1) && g1.now == g.now
            && (RunOk(s1, g1, steps) && Event(s.current) !in steps ==>
                  OnTime(s1, g1, steps, s.current, g.now + step.ticks))
  {
    hide OnTime, RunOk, Basic, AddSleeper, RingRemove;
    StepInv(s, g, step);
    StepDefined(s, g, step);
    RunningNotPending(s, g);
    var (s1, g1) := After(s, g, step);
    assert Dozing(s1, g1, s.current, g.now + step.ticks);
    if RunOk(s1, g1, steps) && Event(s.current) !in steps {
      WakesOnTime(s1, g1, steps, s.current, g.now + step.ticks);
    }
  }

  /** The task waits for an event and for nothing else, and none has been signalled to it. */
  ghost predicate Parked(s: State, g: Ledger, t: Task) {
    t in g.place && g.place[t] == Suspended && t !in s.pending
  }

  lemma {:induction false} StepParked(s: State, g: Ledger, step: Step, t: Task)
    requires Inv(s, g) && Enabled(s, g, step) && Parked(s, g, t) && step != Event(t)
    ensures var (s1, g1) := After(s, g, step); Parked(s1, g1, t)
  {
    hide Basic, SwitchContext, Sized, Release, RingRemove, RingInsert, AddSleeper, Drain, Replay, Replayed, Drained,
      TickDue, TurnTick, Introduce, Reprioritise, RemoveFromEvent;
    StepDefined(s, g, step);
    PlacedByRank(s, g, t);
    match step
    case Tick => IncrementKeeps(s);
    case Resume =>
      ResumeExact(s, g);
      if s.lock == 1 {
        StepInv(s, g, step);
        NonePending(ResumeAll(s), Resumed(s, g));
      }
    case Switch => SwitchKeepsPending(s);
    case Event(u) => EventPending(s, u);
    case Inherit(u, p) => RankKeepsPending(s, u, p);
    case Create(u, p) => NewKeepsPending(s, u, p);
    case _ =>
  }

  lemma {:induction false} RankKeepsPending(s: State, t: Task, p: nat)
    requires Sized(s) && t in s.prio && p < |s.ready|
    ensures Reprioritise(s, t, p).pending == s.pending && Reprioritise(s, t, p).pendedTicks == s.pendedTicks
  {
  }

  lemma {:induction false} NewKeepsPending(s: State, t: Task, p: nat)
    requires Sized(s) && p < |s.ready|
    ensures Introduce(s, t, p).pending == s.pending && Introduce(s, t, p).pendedTicks == s.pendedTicks
  {
  }

  lemma {:induction false} StaysParked(s: State, g: Ledger, steps: seq<Step>, t: Task)
    requires Inv(s, g) && RunOk(s, g, steps) && Parked(s, g, t) && Event(t) !in steps
    ensures Parked(End(s, g, steps).0, End(s, g, steps).1, t)
    decreases |steps|
  {
    hide Inv, Enabled, After, Parked, RunOk;
    if steps != [] {
      RunStep(s, g, steps);
      StepParked(s, g, steps[0], t);
      var (s1, g1) := After(s, g, steps[0]);
      StaysParked(s1, g1, steps[1..], t);
    }
  }

  /** A task that waits without limit is not ready, whatever happens, until an event is signalled to it. */
  lemma {:induction false} WaitsForever(s: State, g: Ledger, steps: seq<Step>)
    requires Inv(s, g) && Enabled(s, g, Wait(MAX_DELAY))
    ensures var (s1, g1) := After(s, g, Wait(MAX_DELAY));
            && Inv(s1, g1)
            && (RunOk(s1, g1, steps) && Event(s.current) !in steps ==>
                  var (r, h) := End(s1, g1, steps);
                  s.current in r.suspended && forall p :: 0 <= p < |r.ready| ==> s.current !in r.ready[p].items)
  {
    hide RunOk, Basic, AddSleeper, RingRemove, End;
    var t := s.current;
    StepInv(s, g, Wait(MAX_DELAY));
    StepDefined(s, g, Wait(MAX_DELAY));
    RunningNotPending(s, g);
    var (s1, g1) := After(s, g, Wait(MAX_DELAY));
    assert Parked(s1, g1, t);
    if RunOk(s1, g1, steps) && Event(t) !in steps {
      StaysParked(s1, g1, steps, t);
      ParkedAway(End(s1, g1, steps).0, End(s1, g1, steps).1, t);
    }
  }

  lemma {:induction false} ParkedAway(s: State, g: Ledger, t: Task)
    requires Inv(s, g) && Parked(s, g, t)
    ensures t in s.suspended && forall p :: 0 <= p < |s.ready| ==> t !in s.ready[p].items
  {
    hide SleepersOk, KernelList.NoDup;
  }

  // ------------------------------------------------------------- no tick is lost

  /** The ticks that have been counted and those that are still to be. */
  function Elapsed(s: State): nat {
    s.overflows * WRAP + s.tick + s.pendedTicks
  }

  function Ticks(steps: seq<Step>): nat {
    if steps == [] then 0 else Bit(steps[0] == Tick) + Ticks(steps[1..])
  }

  lemma {:induction false} ClockIs(s: State, g: Ledger)
    requires Inv(s, g)
    ensures Elapsed(s) == g.now + s.pendedTicks
  {
  }

  lemma {:induction false} StepElapsed(s: State, g: Ledger, step: Step)
    requires Inv(s, g) && Enabled(s, g, step)
    ensures Elapsed(After(s, g, step).0) == Elapsed(s) + Bit(step == Tick)
  {
    hide Inv, SwitchContext, Sized, Release, RingRemove, RingInsert, AddSleeper, Drain, Replay, Replayed, Drained,
      TickDue, TurnTick, Introduce, Reprioritise, RemoveFromEvent, ResumeAll, Resumed, Elapsed, IncrementTick, Block;
    StepDefined(s, g, step);
    StepInv(s, g, step);
    ClockIs(s, g);
    var (s1, g1) := After(s, g, step);
    ClockIs(s1, g1);
    match step
    case Tick => IncrementKeeps(s);
    case Resume => ResumeExact(s, g); ResumeNested(s, g);
    case Switch => SwitchKeepsTicks(s);
    case Event(u) => EventKeepsTicks(s, u);
    case Inherit(u, p) => RankKeepsPending(s, u, p);
    case Create(u, p) => NewKeepsPending(s, u, p);
    case Delay(n) => BlockKeepsTicks(s, n, false);
    case Wait(n) => BlockKeepsTicks(s, n, true);
    case Suspend =>
  }

  lemma {:induction false} ResumeNested(s: State, g: Ledger)
    requires Inv(s, g) && s.lock > 0
    ensures Sized(s) && s.current in s.prio && (forall t :: t in s.pending ==> t in s.prio)
    ensures s.lock > 1 ==> ResumeAll(s).pendedTicks == s.pendedTicks && Resumed(s, g) == g
  {
    StepDefined(s, g, Resume);
  }

  lemma {:induction false} SwitchKeepsTicks(s: State)
    requires Sized(s) && s.topReady < |s.ready| && AnyReady(s)
    ensures SwitchContext(s).pendedTicks == s.pendedTicks
  {
  }

  lemma {:induction false} EventKeepsTicks(s: State, t: Task)
    requires Sized(s) && t in s.prio && s.current in s.prio
    ensures RemoveFromEvent(s, t).pendedTicks == s.pendedTicks
  {
    ReleaseKeeps(s.(waiting := s.waiting - {t}), t);
  }

  lemma {:induction false} BlockKeepsTicks(s: State, n: nat, forever: bool)
    requires Sized(s) && s.current in s.prio && s.current in s.ready[s.prio[s.current]].items
    ensures Block(s, n, forever).pendedTicks == s.pendedTicks
  {
  }

  /** Whatever is suspended and resumed in between, every tick of a run is counted, or is still pended, exactly once. */
  lemma {:induction false} NoTickLost(s: State, g: Ledger, steps: seq<Step>)
    requires Inv(s, g) && RunOk(s, g, steps)
    ensures Elapsed(End(s, g, steps).0) == Elapsed(s) + Ticks(steps)
    decreases |steps|
  {
    hide Inv, Enabled, After, RunOk, Elapsed;
    if steps != [] {
      RunStep(s, g, steps);
      StepElapsed(s, g, steps[0]);
      var (s1, g1) := After(s, g, steps[0]);
      NoTickLost(s1, g1, steps[1..]);
    }
  }

  function Bit(b: bool): nat {
    if b then 1 else 0
  }

  lemma {:induction false} PlaceIsList(s: State, g: Ledger, t: Task)
    requires Inv(s, g) && t in g.place
    ensures t in s.prio && s.prio[t] < |s.ready|
    ensures t in s.ready[s.prio[t]].items <==> g.place[t].Ready?
    ensures t in Tasks(s.delayed) <==> g.place[t] == Delayed
    ensures t in Tasks(s.overflow) <==> g.place[t] == Overflow
    ensures t in s.suspended <==> g.place[t] == Suspended
  {
    hide KernelList.NoDup;
    InReady(s, g, t);
  }

  /**
   * In every state that a run reaches, a task is in exactly one state list; a ready task is in
   * the list of its priority and in no other; nothing is ready above the recorded top priority.
   */
  lemma {:induction false} OneList(s: State, g: Ledger, steps: seq<Step>, t: Task)
    requires Inv(s, g) && RunOk(s, g, steps)
    requires t in End(s, g, steps).0.prio
    ensures var r := End(s, g, steps).0;
            && r.prio[t] < |r.ready|
            && Bit(t in r.ready[r.prio[t]].items) + Bit(t in Tasks(r.delayed))
               + Bit(t in Tasks(r.overflow)) + Bit(t in r.suspended) == 1
            && (forall p :: 0 <= p < |r.ready| && t in r.ready[p].items ==> p == r.prio[t])
            && (forall p :: r.topReady < p < |r.ready| ==> r.ready[p].items == [])
  {
    hide SleepersOk, KernelList.NoDup;
    var (r, h) := End(s, g, steps);
    assert t in h.place;
    PlaceIsList(r, h, t);
  }

  // ------------------------------------------------------------------ no missed switch

  /** The step asks for a context switch, by what it returns or by yielding itself. */
  predicate MustSwitch(s: State, step: Step)
    requires Sized(s) && s.current in s.prio
  {
    match step
    case Tick => TickSwitch(s)
    case Inherit(t, p) => if t == s.current then p < s.prio[t] else p > s.prio[s.current]
    case Create(t, p) => p > s.prio[s.current]
    case _ => false
  }

  lemma {:induction false} ReleaseServed(s: State, t: Task)
    requires Sized(s) && s.current in s.prio && t in s.prio && Served(s) && s.prio[t] < s.prio[s.current]
    ensures Release(s, t).current in Release(s, t).prio && Served(Release(s, t))
  {
    hide RingInsert;
    ReleaseKeeps(s, t);
  }

  lemma {:induction false} DrainServed(s: State)
    requires Drainable(s) && Served(s)
    ensures Served(Drain(s))
    decreases |s.pending|
  {
    if s.pending != [] {
      DrainHeadServed(s);
      hide DrainHead, Served, Drainable;
      DrainServed(DrainHead(s));
    }
  }

  lemma {:induction false} DrainHeadServed(s: State)
    requires Drainable(s) && s.pending != [] && Served(s)
    ensures Served(DrainHead(s))
  {
    hide Release, Sized;
    var t, s0 := s.pending[0], s.(pending := s.pending[1..]);
    SizedPending(s);
    if s.prio[t] < s.prio[s.current] {
      ReleaseServed(s0, t);
    }
  }

  lemma {:induction false} SizedPending(s: State)
    requires Sized(s) && s.pending != []
    ensures Sized(s.(pending := s.pending[1..]))
  {
  }

  lemma {:induction false} ReplayServed(s: State, n: nat)
    requires Sized(s) && s.current in s.prio && Served(s)
    ensures Replay(s, n).current in Replay(s, n).prio && Served(Replay(s, n))
    decreases n
  {
    if n > 0 {
      IncrementKeeps(s);
      if !TickSwitch(s) {
        TickServed(s);
      }
      var s1 := IncrementTick(s).(yieldPending := s.yieldPending || TickSwitch(s));
      ServedToo(IncrementTick(s), s1);
      hide Served, IncrementTick, TickSwitch;
      ReplayServed(s1, n - 1);
    }
  }

  lemma {:induction false} ServedToo(s: State, r: State)
    requires s.current in s.prio && r == s.(yieldPending := r.yieldPending) && (r.yieldPending || Served(s))
    requires s.yieldPending ==> r.yieldPending
    ensures Served(r)
  {
  }

  lemma {:induction false} ResumeServed(s: State)
    requires Drainable(s) && s.lock > 0 && Served(s)
    ensures ResumeAll(s).current in ResumeAll(s).prio && Served(ResumeAll(s))
  {
    if s.lock == 1 {
      DrainServed(s);
      var s1 := Drain(s).(lock := 0);
      var s2 := if s.pending != [] then ResetUnblock(s1) else s1;
      assert Served(s2);
      ReplayServed(s2, s.pendedTicks);
    }
  }

  lemma {:induction false} BlockServed(s: State, ticks: nat, forever: bool)
    requires Sized(s) && s.current in s.prio && s.current in s.ready[s.prio[s.current]].items && Served(s)
    ensures Served(Block(s, ticks, forever))
  {
    hide AddSleeper, RingRemove;
  }

  /** A switch restores order, whatever came before it. */
  lemma {:induction false} SwitchServed(s: State, g: Ledger)
    requires Inv(s, g) && Sized(s) && s.topReady < |s.ready| && AnyReady(s)
    ensures SwitchContext(s).current in SwitchContext(s).prio && Served(SwitchContext(s))
  {
    hide SleepersOk, KernelList.NoDup, Sized;
    SwitchExact(s, g);
  }

  lemma {:induction false} IntroduceServed(s: State, t: Task, p: nat)
    requires Sized(s) && s.current in s.prio && t !in s.prio && p < |s.ready| && p <= s.prio[s.current] && Served(s)
    ensures Introduce(s, t, p).current in Introduce(s, t, p).prio && Served(Introduce(s, t, p))
  {
    hide RingInsert;
  }

  lemma {:induction false} SelfRaiseServed(s: State, p: nat)
    requires Sized(s) && s.current in s.prio && s.prio[s.current] <= p < |s.ready| && Served(s)
    ensures var r := Reprioritise(s, s.current, p); r.current in r.prio && Served(r)
  {
    hide RingInsert, RingRemove;
  }

  lemma {:induction false} InheritServed(s: State, t: Task, p: nat)
    requires Sized(s) && s.current in s.prio && t in s.prio && p < |s.ready| && Served(s)
    requires !MustSwitch(s, Inherit(t, p))
    ensures var r := Reprioritise(s, t, p); r.current in r.prio && Served(r)
  {
    hide Reprioritise, Served, Sized;
    if t == s.current {
      SelfRaiseServed(s, p);
    } else {
      RaiseServed(s, t, p);
    }
  }

  /** Every step leaves no ready task above the running one, unless it asks for a switch. */
  lemma {:induction false} StepServed(s: State, g: Ledger, step: Step)
    requires Inv(s, g) && Enabled(s, g, step)
    ensures Sized(s) && s.current in s.prio
    ensures var r := After(s, g, step).0;
            r.current in r.prio && (step == Switch || (Served(s) && !MustSwitch(s, step)) ==> Served(r))
  {
    hide Inv, Served, Sized, IncrementTick, Block, RemoveFromEvent, ResumeAll, SwitchContext, Reprioritise, Introduce,
      TickSwitch;
    StepDefined(s, g, step);
    StepInv(s, g, step);
    InvFacts(After(s, g, step).0, After(s, g, step).1);
    if step == Switch {
      SwitchServed(s, g);
    } else if Served(s) && !MustSwitch(s, step) {
      match step
      case Tick => TickServed(s);
      case Delay(n) => BlockServed(s, n, false);
      case Wait(n) =>
        BlockServed(s, n, true);
        ServedWaiting(Block(s, n, true), s.waiting + {s.current});
      case Event(t) => EventServed(s, t);
      case Suspend => ServedSuspended(s);
      case Resume =>
        InvDrainable(s, g);
        ResumeServed(s);
      case Inherit(t, p) => InheritServed(s, t, p);
      case Create(t, p) => IntroduceServed(s, t, p);
      case Switch =>
    }
  }

  lemma {:induction false} ServedWaiting(s: State, waiting: set<Task>)
    requires s.current in s.prio && Served(s)
    ensures Served(s.(waiting := waiting))
  {
  }

  lemma {:induction false} ServedSuspended(s: State)
    requires s.current in s.prio && Served(s)
    ensures Served(SuspendAll(s))
  {
  }

  /** Whenever a step asks for a switch, a switch comes next. */
  ghost predicate Prompt(s: State, g: Ledger, steps: seq<Step>)
    requires Inv(s, g) && RunOk(s, g, steps)
    decreases |steps|
  {
    steps != [] ==>
      (RunStep(s, g, steps);
       StepServed(s, g, steps[0]);
       var (s1, g1) := After(s, g, steps[0]);
       (MustSwitch(s, steps[0]) ==> |steps| > 1 && steps[1] == Switch) && Prompt(s1, g1, steps[1..]))
  }

  /**
   * In every run in which a switch follows whenever a step asks for one, nobody who is ready
   * outranks the running task at the end, unless a switch is already on its way.
   */
  lemma {:induction false} RunServed(s: State, g: Ledger, steps: seq<Step>)
    requires Inv(s, g) && RunOk(s, g, steps) && Prompt(s, g, steps) && s.current in s.prio
    requires Served(s) || (steps != [] && steps[0] == Switch)
    ensures var r := End(s, g, steps).0;
            r.current in r.prio && Served(r)
    decreases |steps|
  {
    hide Inv, Enabled, After, Served, RunOk, MustSwitch;
    if steps != [] {
      RunStep(s, g, steps);
      StepServed(s, g, steps[0]);
      var (s1, g1) := After(s, g, steps[0]);
      RunServed(s1, g1, steps[1..]);
    }
  }
}
