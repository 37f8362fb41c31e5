/**
 * The operations of FreeRTOS/Source/tasks.c that change the scheduler's file-scope
 * variables, each proved against the function in Scheduler that specifies it.
 */
module SchedulerKernel {
  import opened KernelList
  import opened Scheduler

  class Kernel {
    var tick: nat
    var overflows: nat
    var delayed: seq<Sleeper>
    var overflow: seq<Sleeper>
    var nextUnblock: nat
    var ready: seq<ReadyList>
    var topReady: nat
    var suspended: seq<Task>
    var pending: seq<Task>
    var current: Task
    var lock: nat
    var pendedTicks: nat
    var yieldPending: bool
    var prio: map<Task, nat>
    var waiting: set<Task>
    var idle: Task
    ghost var ledger: Ledger

    ghost function St(): State
      reads this
    {
      State(tick, overflows, delayed, overflow, nextUnblock, ready, topReady, suspended, pending, current, lock,
          pendedTicks,
            yieldPending, prio, waiting, idle)
    }

    ghost predicate Valid()
      reads this
    {
      Inv(St(), ledger)
    }

    constructor (levels: nat, idle: Task)
      requires 0 < levels
      ensures Valid() && St() == Boot(levels, idle) && Elapsed() == 0
    {
      var s := Boot(levels, idle);
      tick, overflows, delayed, overflow, nextUnblock := s.tick, s.overflows, s.delayed, s.overflow, s.nextUnblock;
      ready, topReady, suspended, pending, current := s.ready, s.topReady, s.suspended, s.pending, s.current;
      lock, pendedTicks, yieldPending, prio, waiting := s.lock, s.pendedTicks, s.yieldPending, s.prio, s.waiting;
      this.idle := idle;
      ledger := Ledger(0, map[], map[idle := Ready(0)]);
      new;
      BootInv(levels, idle);
    }

    /** Time that has really passed: ticks counted and ticks still pended. */
    ghost function Elapsed(): nat
      reads this
    {
      ledger.now + pendedTicks
    }

    /** prvAddTaskToReadyList */
    method AddToReady(t: Task)
      requires Sized(St()) && t in prio
      modifies this`ready, this`topReady
      ensures St() == MakeReady(old(St()), t)
    {
      var p := prio[t];
      if p > topReady {
        topReady := p;
      }
      ready := ready[p := RingInsert(ready[p], t)];
    }

    /** The move to another priority in xTaskPriorityInherit and the two functions that undo it. */
    method ChangePriority(t: Task, p: nat)
      requires Valid() && t in ledger.place && p < |ready|
      modifies this
      ensures Sized(old(St())) && t in old(prio) && St() == Reprioritise(old(St()), t, p)
      ensures Valid() && ledger == Moved(old(St()), old(ledger), t, p) && Elapsed() == old(Elapsed())
    {
      hide Inv, Sized, MakeReady, RingRemove, RingInsert;
      ghost var s := St();
      ReprioritiseInv(s, ledger, t, p);
      var was := prio[t];
      PriorityFits(s, t);
      if t in ready[was].items {
        ready := ready[was := RingRemove(ready[was], t)];
        prio := prio[t := p];
        MoveSized(s, t, p);
        AddToReady(t);
      } else {
        prio := prio[t := p];
      }
      ledger := Moved(s, ledger, t, p);
    }

    /** The loop of xTaskIncrementTick: readies the heads of the delayed list that are due. */
    method UnblockDue() returns (rival: bool)
      requires Sized(St()) && current in prio
      modifies this`ready, this`topReady, this`delayed, this`waiting, this`nextUnblock
      ensures St() == TickDue(old(St())) && rival == WakesRival(old(St()))
    {
      hide Sized, MakeReady, RingInsert;
      rival := false;
      while true
        invariant Sized(St()) && TickDue(St()) == TickDue(old(St()))
        invariant WakesRival(old(St())) == (rival || WakesRival(St()))
        decreases |delayed|
      {
        if delayed == [] {
          nextUnblock := MAX_DELAY;
          return;
        }
        var head := delayed[0];
        if tick < head.value {
          nextUnblock := head.value;
          return;
        }
        HeadKnown(St());
        ghost var s := St();
        delayed := delayed[1..];
        waiting := waiting - {head.task};
        TailSized(s);
        AddToReady(head.task);
        if prio[head.task] >= prio[current] {
          rival := true;
        }
      }
    }

    /** The tick count moves on, the delayed lists change places when it wraps. */
    method TurnOver()
      modifies this`tick, this`delayed, this`overflow, this`overflows, this`nextUnblock
      ensures St() == TurnTick(old(St()))
    {
      tick := if tick + 1 < WRAP then tick + 1 else 0;
      if tick == 0 {
        delayed, overflow := overflow, delayed;
        overflows := overflows + 1;
        ResetNextUnblock();
      }
    }

    /** prvResetNextTaskUnblockTime */
    method ResetNextUnblock()
      modifies this`nextUnblock
      ensures St() == ResetUnblock(old(St()))
    {
      nextUnblock := if delayed == [] then MAX_DELAY else delayed[0].value;
    }

    /** xTaskIncrementTick */
    method IncrementTick() returns (switch: bool)
      requires Sized(St()) && current in prio
      modifies this
      ensures St() == Scheduler.IncrementTick(old(St())) && switch == TickSwitch(old(St()))
      ensures old(Valid()) ==> Valid() && Elapsed() == old(Elapsed()) + 1
      ensures ledger == if old(lock) == 0 then Ticked(old(St()), old(ledger)) else old(ledger)
    {
      hide Sized, Inv, TickDue, MakeReady, WakesRival, Placed, TurnTick;
      ghost var s0, g0 := St(), ledger;
      switch := false;
      IncrementKeeps(s0);
      if lock == 0 {
        TurnSized(s0);
        TurnOver();
        if tick >= nextUnblock {
          switch := UnblockDue();
        }
        PrioInRange(St());
        if |ready[prio[current]].items| > 1 {
          switch := true;
        }
        ledger := Ticked(s0, g0);
        if Inv(s0, g0) {
          TickExact(s0, g0);
        }
      } else {
        pendedTicks := pendedTicks + 1;
        if Inv(s0, g0) {
          MoreTicks(s0, g0);
        }
      }
      if yieldPending {
        switch := true;
      }
    }

    /** prvAddCurrentTaskToDelayedList, for a task that is not the idle task. */
    method AddCurrentToDelayed(ticks: nat, forever: bool)
      requires Valid() && 1 <= ticks < WRAP && current != idle && current in ledger.place
      requires ledger.place[current].Ready?
      modifies this
      ensures Valid() && current in old(prio) && current in old(ready)[old(prio)[current]].items && Sized(old(St()))
      ensures St() == Block(old(St()), ticks, forever) && ledger == Blocked(old(St()), old(ledger), ticks, forever)
      ensures Elapsed() == old(Elapsed())
    {
      hide Inv, Sized, RingRemove, AddSleeper;
      ghost var s0, g0 := St(), ledger;
      BlockInv(s0, g0, ticks, forever);
      PrioInRange(s0);
      var p := prio[current];
      RingFits(s0, p);
      ready := ready[p := RingRemove(ready[p], current)];
      if forever && ticks == MAX_DELAY {
        suspended := suspended + [current];
      } else {
        var wake := if tick + ticks < WRAP then tick + ticks else tick + ticks - WRAP;
        if wake < tick {
          overflow := AddSleeper(overflow, Sleeper(current, wake));
        } else {
          delayed := AddSleeper(delayed, Sleeper(current, wake));
          if wake < nextUnblock {
            nextUnblock := wake;
          }
        }
      }
      ledger := Blocked(s0, g0, ticks, forever);
    }

    /** vTaskPlaceOnEventList: blocked until the event or the time, whichever comes first. */
    method PlaceOnEventList(ticks: nat)
      requires Valid() && 1 <= ticks < WRAP && current != idle && current in ledger.place
      requires ledger.place[current].Ready?
      modifies this
      ensures Valid() && current == old(current) && waiting == old(waiting) + {current}
      ensures ledger == Blocked(old(St()), old(ledger), ticks, true) && Elapsed() == old(Elapsed())
    {
      hide Inv, Sized, Block;
      ghost var s0, g0 := St(), ledger;
      BlockInv(s0, g0, ticks, true);
      AddCurrentToDelayed(ticks, true);
      BlockKeeps(s0, g0, ticks, true);
      NowWaiting(St(), ledger, current);
      waiting := waiting + {current};
    }

    /** uxListRemove of the state item of a blocked task. */
    method RemoveFromStateList(t: Task)
      modifies this`delayed, this`overflow, this`suspended
      ensures St() == Unlist(old(St()), t)
    {
      if t in Tasks(delayed) {
        delayed := RemoveAt(delayed, PosOf(Tasks(delayed), t));
      } else if t in Tasks(overflow) {
        overflow := RemoveAt(overflow, PosOf(Tasks(overflow), t));
      } else if t in suspended {
        suspended := RemoveAt(suspended, PosOf(suspended, t));
      }
    }

    /** xTaskRemoveFromEventList, t being the first task on the event list. */
    method RemoveFromEventList(t: Task) returns (higher: bool)
      requires Valid() && t in waiting
      modifies this
      ensures Valid() && t in old(prio) && Sized(old(St())) && St() == RemoveFromEvent(old(St()), t)
      ensures ledger == if old(lock) == 0 then old(ledger).(place := old(ledger).place[t := Ready(old(prio)[t])])
              else old(ledger)
      ensures higher == (prio[t] > prio[current]) && Elapsed() == old(Elapsed())
    {
      hide Inv, Sized, Release;
      ghost var s0, g0 := St(), ledger;
      RemoveFromEventInv(s0, g0, t);
      InvFacts(s0, g0);
      EventSized(s0, t);
      waiting := waiting - {t};
      Requeue(t);
      higher := prio[t] > prio[current];
      if higher {
        yieldPending := true;
      }
      ledger := if lock == 0 then g0.(place := g0.place[t := Ready(prio[t])]) else g0;
    }

    /** The task becomes ready, or pending while the scheduler is suspended. */
    method Requeue(t: Task)
      requires Sized(St()) && t in prio
      modifies this`ready, this`topReady, this`delayed, this`overflow, this`suspended, this`pending
      ensures Sized(old(St())) && St() == if lock == 0 then Release(old(St()), t)
              else old(St()).(pending := old(pending) + [t])
    {
      if lock == 0 {
        UnlistSized(St(), t);
        hide Sized, Unlist, MakeReady;
        RemoveFromStateList(t);
        AddToReady(t);
      } else {
        pending := pending + [t];
      }
    }

    /** vTaskSuspendAll */
    method SuspendScheduler()
      requires Valid()
      modifies this`lock
      ensures Valid() && St() == SuspendAll(old(St()))
    {
      hide Inv;
      LockAny(St(), ledger, lock + 1);
      lock := lock + 1;
    }

    /** Moves the tasks readied while the scheduler was suspended to their ready lists. */
    method ReadyPending()
      requires Drainable(St())
      modifies this`pending, this`delayed, this`overflow, this`suspended, this`ready, this`topReady, this`yieldPending
      ensures St() == Drain(old(St()))
    {
      hide Sized, Unlist, MakeReady, Drain, Drainable;
      while pending != []
        invariant Drainable(St())
        invariant Drain(St()) == Drain(old(St()))
        decreases |pending|
      {
        ghost var s := St();
        DrainStep(s);
        var t := pending[0];
        pending := pending[1..];
        RemoveFromStateList(t);
        AddToReady(t);
        if prio[t] >= prio[current] {
          yieldPending := true;
        }
      }
      DrainNothing(St());
    }

    /** Works off the ticks that were pended while the scheduler was suspended. */
    method ReplayTicks()
      requires Valid() && lock == 0
      modifies this
      ensures Valid() && Sized(old(St())) && St() == Replay(old(St()), old(pendedTicks)).(pendedTicks := 0)
      ensures ledger == Replayed(old(St()), old(ledger), old(pendedTicks)) && Elapsed() == old(Elapsed())
    {
      hide Inv, Sized, Scheduler.IncrementTick, TickSwitch, Ticked;
      var n := pendedTicks;
      InvFacts(St(), ledger);
      while n > 0
        invariant Valid() && lock == 0 && Sized(St()) && current in prio
        invariant Replay(St(), n) == Replay(old(St()), old(pendedTicks))
        invariant Replayed(St(), ledger, n) == Replayed(old(St()), old(ledger), old(pendedTicks))
        invariant ledger.now + n == old(Elapsed())
      {
        ghost var s, g := St(), ledger;
        ReplayStep(s, g, n);
        IncrementKeeps(s);
        var switch := IncrementTick();
        YieldAny(St(), ledger, yieldPending || switch);
        if switch {
          yieldPending := true;
        }
        n := n - 1;
        InvFacts(St(), ledger);
      }
      PendedAny(St(), ledger);
      pendedTicks := 0;
    }

    /** xTaskResumeAll; returns whether a switch was requested. */
    method ResumeScheduler() returns (yielded: bool)
      requires Valid() && lock > 0
      modifies this
      ensures Sized(old(St())) && old(current) in old(prio) && (forall t :: t in old(pending) ==> t in old(prio))
      ensures Valid() && St() == Scheduler.ResumeAll(old(St())) && ledger == Resumed(old(St()), old(ledger))
      ensures Elapsed() == old(Elapsed()) && (lock == 0 ==> pendedTicks == 0 && yielded == yieldPending)
    {
      hide Inv, Sized, Drain, Replay, Replayed, Drained, MakeReady;
      ghost var s0, g0 := St(), ledger;
      ResumeExact(s0, g0);
      yielded := false;
      lock := lock - 1;
      if lock == 0 {
        var any := pending != [];
        LockSized(s0, 0);
        ReadyPending();
        DrainInv(s0, g0);
        DrainLock(s0);
        if any {
          ResetNextUnblock();
        }
        ledger := g0.(place := Drained(g0.place, s0.pending, s0.prio));
        LockAny(Drain(s0), ledger, 0);
        UnblockAny(Drain(s0).(lock := 0), ledger);
        ReplayTicks();
        yielded := yieldPending;
      }
    }

    /** The downward scan for the highest priority with a ready task. */
    method ScanDown() returns (p: nat)
      requires topReady < |ready| && AnyReady(St())
      ensures p == TopFrom(ready, topReady)
    {
      p := topReady;
      while ready[p].items == []
        invariant p < |ready| && TopFrom(ready, p) == TopFrom(ready, topReady)
        decreases p
      {
        p := p - 1;
      }
    }

    /** vTaskSwitchContext */
    method SwitchTask()
      requires Valid()
      modifies this
      ensures Valid() && ledger == old(ledger) && Elapsed() == old(Elapsed())
      ensures old(topReady) < |old(ready)| && Sized(old(St())) && AnyReady(old(St()))
      ensures St() == SwitchContext(old(St()))
      ensures lock == 0 ==>
                && current in ledger.place && ledger.place[current] == Ready(prio[current])
                && forall t :: t in ledger.place && ledger.place[t].Ready? ==> t in prio && prio[t] <= prio[current]
    {
      hide Inv, Sized, TopFrom, NextPos;
      SwitchExact(St(), ledger);
      InvFacts(St(), ledger);
      if lock > 0 {
        yieldPending := true;
      } else {
        yieldPending := false;
        var p := ScanDown();
        var l := ready[p];
        RingStep(St(), p);
        var at := NextPos(l.at, |l.items| + 1);
        ready := ready[p := l.(at := at)];
        current := l.items[at - 1];
        topReady := p;
      }
    }
  }

  lemma {:induction false} RingFits(s: State, p: nat)
    requires Sized(s) && p < |s.ready|
    ensures s.ready[p].at <= |s.ready[p].items|
  {
  }

  lemma {:induction false} PriorityFits(s: State, t: Task)
    requires Sized(s) && t in s.prio
    ensures s.prio[t] < |s.ready| && s.ready[s.prio[t]].at <= |s.ready[s.prio[t]].items|
  {
  }

  lemma {:induction false} MoveSized(s: State, t: Task, p: nat)
    requires Sized(s) && t in s.prio && p < |s.ready| && t in s.ready[s.prio[t]].items
    ensures Sized(s.(ready := s.ready[s.prio[t] := RingRemove(s.ready[s.prio[t]], t)], prio := s.prio[t := p]))
  {
  }

  lemma {:induction false} RingStep(s: State, p: nat)
    requires Sized(s) && p < |s.ready| && s.ready[p].items != []
    ensures 1 <= NextPos(s.ready[p].at, |s.ready[p].items| + 1) <= |s.ready[p].items|
  {
  }

  lemma {:induction false} BlockKeeps(s: State, g: Ledger, ticks: nat, forever: bool)
    requires Inv(s, g) && Sized(s) && s.current in s.prio && s.current in s.ready[s.prio[s.current]].items
    requires g.place[s.current].Ready?
    ensures var r := Block(s, ticks, forever);
            && r.current == s.current && r.waiting == s.waiting && r.pending == s.pending && s.current !in s.pending
            && r.lock == s.lock && r.pendedTicks == s.pendedTicks
  {
  }

  lemma {:induction false} EventSized(s: State, t: Task)
    requires Sized(s) && t in s.prio
    ensures var s1 := s.(waiting := s.waiting - {t});
            Sized(s1) && s1.prio == s.prio
                && (s.lock == 0 ==> Release(s1, t).lock == 0 && Release(s1, t).current == s.current)
  {
    ReleaseKeeps(s.(waiting := s.waiting - {t}), t);
  }

  lemma {:induction false} PendingSized(s: State, t: Task)
    requires Sized(s) && s.pending != []
    ensures Sized(s.(pending := s.pending[1..])) && Sized(Unlist(s.(pending := s.pending[1..]), t))
    ensures Unlist(s.(pending := s.pending[1..]), t).prio == s.prio
  {
    UnlistSized(s.(pending := s.pending[1..]), t);
  }

  lemma {:induction false} DrainStep(s: State)
    requires Drainable(s) && s.pending != []
    ensures var t := s.pending[0];
            var s0 := s.(pending := s.pending[1..]);
            && t in s.prio && s.current in s.prio && Sized(s0) && Sized(Unlist(s0, t)) && Unlist(s0, t).prio == s.prio
            && var s1 := MakeReady(Unlist(s0, t), t);
            && Drainable(s1)
            && Drain(s) == Drain(if s.prio[t] >= s.prio[s.current] then s1.(yieldPending := true) else s1)
            && Drainable(s1.(yieldPending := true))
  {
    PendingSized(s, s.pending[0]);
    ReleaseKeeps(s.(pending := s.pending[1..]), s.pending[0]);
  }

  lemma {:induction false} DrainNothing(s: State)
    requires Drainable(s) && s.pending == []
    ensures Drain(s) == s
  {
  }

  lemma {:induction false} LockSized(s: State, lock: nat)
    requires Sized(s)
    ensures Sized(s.(lock := lock))
  {
  }

  /** Draining does not look at the lock. */
  lemma {:induction false} DrainHeadLock(s: State)
    requires Drainable(s) && s.pending != []
    ensures Drainable(s.(lock := 0)) && DrainHead(s.(lock := 0)) == DrainHead(s).(lock := 0)
  {
  }

  lemma {:induction false} DrainLock(s: State)
    requires Drainable(s)
    ensures Drainable(s.(lock := 0)) && Drain(s.(lock := 0)) == Drain(s).(lock := 0)
    decreases |s.pending|
  {
    if s.pending != [] {
      hide DrainHead, Drainable;
      DrainHeadLock(s);
      DrainLock(DrainHead(s));
    }
  }

  lemma {:induction false} HeadKnown(s: State)
    requires Sized(s) && s.delayed != []
    ensures s.delayed[0].task in s.prio
  {
  }

  lemma {:induction false} TailSized(s: State)
    requires Sized(s) && s.delayed != []
    ensures Sized(s.(delayed := s.delayed[1..], waiting := s.waiting - {s.delayed[0].task}))
  {
  }

  lemma {:induction false} TurnSized(s: State)
    requires Sized(s)
    ensures Sized(TurnTick(s))
  {
  }

  lemma {:induction false} PrioInRange(s: State)
    requires Sized(s) && s.current in s.prio
    ensures s.prio[s.current] < |s.ready|
  {
  }

}
