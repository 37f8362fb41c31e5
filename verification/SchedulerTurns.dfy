/**
 * Who runs when: the ready lists of FreeRTOS/Source/tasks.c as queues of turns, round robin
 * between tasks of equal priority, time slicing, and nested suspension of the scheduler.
 */
module SchedulerTurns {
  import opened KernelList
  import opened Scheduler

  // --------------------------------------------------------------------- turns

  /** The tasks of a ready list in the order in which switches bring them up. */
  function Turns(l: ReadyList): seq<Task>
    requires l.at <= |l.items|
  {
    l.items[l.at..] + l.items[..l.at]
  }

  /** Everybody on the list has one turn. */
  lemma {:induction false} TurnsMembers(l: ReadyList)
    requires l.at <= |l.items|
    ensures |Turns(l)| == |l.items| && multiset(Turns(l)) == multiset(l.items)
    ensures forall t :: t in Turns(l) <==> t in l.items
    ensures NoDup(l.items) ==> forall j, k :: 0 <= j < k < |Turns(l)| ==> Turns(l)[j] != Turns(l)[k]
  {
    var a, b := l.items[..l.at], l.items[l.at..];
    assert l.items == a + b && multiset(a + b) == multiset(b + a);
    assert forall i :: 0 <= i < |l.items| ==>
        Turns(l)[i] == l.items[if i < |b| then l.at + i else i - |b|];
  }

  /**
   * A task that becomes ready waits for everybody else on its list, except the one that had
   * the last turn.
   */
  lemma {:induction false} TurnsInsert(l: ReadyList, t: Task)
    requires l.at <= |l.items|
    ensures var q, r, n := Turns(l), Turns(RingInsert(l, t)), |l.items|;
            |q| == n && r == if l.at == 0 then q + [t] else q[..n - 1] + [t] + [q[n - 1]]
  {
    var q, r, n := Turns(l), RingInsert(l, t), |l.items|;
    if l.at == 0 {
      assert r.items == l.items + [t];
    } else {
      assert r.items == l.items[..l.at - 1] + [t] + l.items[l.at - 1..];
      assert r.items[..r.at] == l.items[..l.at - 1] + [t] + [l.items[l.at - 1]];
      assert r.items[r.at..] == l.items[l.at..];
      assert q == l.items[l.at..] + l.items[..l.at - 1] + [l.items[l.at - 1]];
    }
  }

  lemma {:induction false} RemoveFromSum<T>(a: seq<T>, b: seq<T>, k: nat)
    requires k < |a| + |b|
    ensures RemoveAt(a + b, k) == if k < |a| then RemoveAt(a, k) + b else a + RemoveAt(b, k - |a|)
  {
  }

  /** A task that leaves its list gives up its turn, and nobody else's changes. */
  lemma {:induction false} TurnsRemove(l: ReadyList, t: Task)
    requires l.at <= |l.items| && t in l.items && NoDup(l.items)
    ensures t in Turns(l) && Turns(RingRemove(l, t)) == RemoveAt(Turns(l), PosOf(Turns(l), t))
  {
    hide NoDup, RemoveAt, RingRemove;
    TurnsMembers(l);
    var k, a, b := PosOf(l.items, t), l.items[..l.at], l.items[l.at..];
    var j := if k >= |a| then k - |a| else |b| + k;
    assert l.items == a + b;
    assert (b + a)[j] == t;
    OnlyPlace(b + a, t, j);
    RemoveFromSum(a, b, k);
    RemoveFromSum(b, a, j);
    SplitRemoved(l, t, a, b, k);
  }

  lemma {:induction false} OnlyPlace(q: seq<Task>, t: Task, j: nat)
    requires NoDup(q) && j < |q| && q[j] == t
    ensures PosOf(q, t) == j
  {
  }

  lemma {:induction false} SplitRemoved(l: ReadyList, t: Task, a: seq<Task>, b: seq<Task>, k: nat)
    requires l.items == a + b && |a| == l.at && t in l.items && k == PosOf(l.items, t)
    ensures var r := RingRemove(l, t);
            Turns(r) == if k < |a| then b + RemoveAt(a, k) else RemoveAt(b, k - |a|) + a
  {
    var r := RingRemove(l, t);
    RemoveFromSum(a, b, k);
    if k < |a| {
      assert r.items[r.at..] == b && r.items[..r.at] == RemoveAt(a, k);
    } else {
      assert r.items[r.at..] == RemoveAt(b, k - |a|) && r.items[..r.at] == a;
    }
  }

  /** The task at the front takes its turn and goes to the end. */
  lemma {:induction false} TurnsNext(l: ReadyList)
    requires l.at <= |l.items| && l.items != []
    ensures var at := NextPos(l.at, |l.items| + 1);
            && 1 <= at <= |l.items| && l.items[at - 1] == Turns(l)[0]
            && Turns(l.(at := at)) == Turns(l)[1..] + [Turns(l)[0]]
  {
    var at := NextPos(l.at, |l.items| + 1);
    if l.at < |l.items| {
      assert l.items[l.at..] == [l.items[l.at]] + l.items[at..];
      assert l.items[..at] == l.items[..l.at] + [l.items[l.at]];
    } else {
      assert Turns(l) == l.items;
    }
  }

  // --------------------------------------------------------------- round robin

  /** The states are those of a run of switches and nothing else. */
  ghost predicate Switching(states: seq<State>) {
    && states != []
    && forall i :: 0 <= i < |states| - 1 ==>
         && Sized(states[i]) && states[i].topReady < |states[i].ready| && AnyReady(states[i])
         && states[i + 1] == SwitchContext(states[i])
  }

  /** Position i of a queue whose front has gone to the end k times. */
  function Around(k: nat, n: nat): (i: nat)
    requires n > 0
    ensures i < n
  {
    if k == 0 then 0 else if Around(k - 1, n) + 1 == n then 0 else Around(k - 1, n) + 1
  }

  lemma {:induction false} AroundOnce(k: nat, n: nat)
    requires k < n
    ensures Around(k, n) == k
  {
    if k > 0 {
      AroundOnce(k - 1, n);
    }
  }

  /** A queue after k turns. */
  ghost predicate Turned(q: seq<Task>, k: nat, r: seq<Task>)
    requires q != []
  {
    r == q[Around(k, |q|)..] + q[..Around(k, |q|)]
  }

  lemma {:induction false} TurnedNext(q: seq<Task>, k: nat, r: seq<Task>)
    requires q != [] && Turned(q, k, r)
    ensures r[0] == q[Around(k, |q|)] && Turned(q, k + 1, r[1..] + [r[0]])
  {
    var i := Around(k, |q|);
    assert q[i..] == [q[i]] + q[i + 1..] && q[..i + 1] == q[..i] + [q[i]];
    assert r[1..] == q[i + 1..] + q[..i];
    if i + 1 == |q| {
      assert r[1..] + [r[0]] == q;
      assert q[0..] + q[..0] == q;
    }
  }

  /** One switch. */
  lemma {:induction false} SwitchTurns(s: State)
    requires Sized(s) && s.topReady < |s.ready| && AnyReady(s) && s.lock == 0
    ensures TopFrom(s.ready, s.topReady) < |SwitchContext(s).ready|
    ensures var p, r := TopFrom(s.ready, s.topReady), SwitchContext(s);
            && s.ready[p].items != [] && s.ready[p].at <= |s.ready[p].items| && |Turns(s.ready[p])| > 0
            && r.current == Turns(s.ready[p])[0]
            && r == s.(ready := r.ready, yieldPending := false, topReady := p, current := r.current)
            && |r.ready| == |s.ready| && (forall q :: 0 <= q < |s.ready| && q != p ==> r.ready[q] == s.ready[q])
            && r.ready[p].items == s.ready[p].items && r.ready[p].at <= |r.ready[p].items|
            && Turns(r.ready[p]) == Turns(s.ready[p])[1..] + [Turns(s.ready[p])[0]]
            && TopFrom(r.ready, r.topReady) == p
  {
    TurnsNext(s.ready[TopFrom(s.ready, s.topReady)]);
  }

  lemma {:induction false} AfterSwitches(states: seq<State>, k: nat)
    requires Switching(states) && k < |states| && states[0].lock == 0
    requires Sized(states[0]) && states[0].topReady < |states[0].ready| && AnyReady(states[0])
    ensures var s, p := states[k], TopFrom(states[0].ready, states[0].topReady);
            var q := Turns(states[0].ready[p]);
            && q != [] && s.lock == 0 && p < |s.ready| && s.ready[p].items == states[0].ready[p].items
            && s.ready[p].at <= |s.ready[p].items| && Turned(q, k, Turns(s.ready[p]))
            && s.topReady < |s.ready| && TopFrom(s.ready, s.topReady) == p
            && (k > 0 ==> s.current == q[Around(k - 1, |q|)])
  {
    hide Sized, AnyReady, SwitchContext, TopFrom, Turns, Turned;
    var p := TopFrom(states[0].ready, states[0].topReady);
    SwitchTurns(states[0]);
    if k == 0 {
      AtStart(Turns(states[0].ready[p]));
    } else {
      AfterSwitches(states, k - 1);
      SwitchTurns(states[k - 1]);
      TurnedNext(Turns(states[0].ready[p]), k - 1, Turns(states[k - 1].ready[p]));
    }
  }

  lemma {:induction false} AtStart(q: seq<Task>)
    requires q != []
    ensures Turned(q, 0, q)
  {
    assert q[0..] + q[..0] == q;
  }

  /**
   * Round robin: with n tasks in the highest ready list, n switches in a row bring up each of
   * them exactly once, in the order of their turns.
   */
  lemma {:induction false} RoundRobin(states: seq<State>, g: Ledger)
    requires Switching(states) && states[0].lock == 0 && Inv(states[0], g)
    ensures Sized(states[0]) && states[0].topReady < |states[0].ready|
    ensures var l := states[0].ready[TopFrom(states[0].ready, states[0].topReady)];
            |states| == |l.items| + 1 ==>
              && (forall k :: 1 <= k < |states| ==> states[k].current == Turns(l)[k - 1])
              && (forall t :: t in l.items ==> exists k :: 1 <= k < |states| && states[k].current == t)
              && (forall j, k :: 1 <= j < k < |states| ==> states[j].current != states[k].current)
  {
    hide Sized, AnyReady, SwitchContext, TopFrom, Turns, Turned, Inv, NoDup;
    IdleReady(states[0], g);
    var l := states[0].ready[TopFrom(states[0].ready, states[0].topReady)];
    TopListOk(states[0], g);
    TurnsMembers(l);
    if |states| == |l.items| + 1 {
      forall k | 1 <= k < |states|
        ensures states[k].current == Turns(l)[k - 1]
      {
        AfterSwitches(states, k);
        AroundOnce(k - 1, |l.items|);
      }
      forall t | t in l.items
        ensures exists k :: 1 <= k < |states| && states[k].current == t
      {
        var i :| 0 <= i < |Turns(l)| && Turns(l)[i] == t;
        assert states[i + 1].current == t;
      }
    }
  }

  lemma {:induction false} IdleReady(s: State, g: Ledger)
    requires Inv(s, g)
    ensures Sized(s) && s.topReady < |s.ready| && AnyReady(s)
  {
    IdleIsReady(s, g);
  }

  lemma {:induction false} TopListOk(s: State, g: Ledger)
    requires Inv(s, g) && s.topReady < |s.ready|
    ensures var l := s.ready[TopFrom(s.ready, s.topReady)]; l.at <= |l.items| && NoDup(l.items)
  {
  }

  // --------------------------------------------------------------- time slicing

  lemma {:induction false} StaysReady(s: State, t: Task, p: nat)
    requires Sized(s) && p < |s.ready| && t in s.ready[p].items
    ensures p < |TickDue(s).ready| && t in TickDue(s).ready[p].items
    decreases |s.delayed|
  {
    if s.delayed != [] && s.tick >= s.delayed[0].value {
      var u := s.delayed[0].task;
      var l := s.ready[s.prio[u]];
      InsertMembers(l.items, if l.at == 0 then |l.items| else l.at - 1, u);
      StaysReady(WakeHead(s), t, p);
    }
  }

  /** A rival is a sleeper that the tick makes ready, of at least the running priority. */
  lemma {:induction false} RivalWakes(s: State) returns (t: Task)
    requires Sized(s) && s.current in s.prio && WakesRival(s)
    ensures t in Tasks(s.delayed) && t in s.prio && s.prio[t] >= s.prio[s.current]
    ensures s.prio[t] < |TickDue(s).ready| && t in TickDue(s).ready[s.prio[t]].items
    decreases |s.delayed|
  {
    t := s.delayed[0].task;
    assert Tasks(s.delayed)[0] == t;
    if s.prio[t] >= s.prio[s.current] {
      var l := s.ready[s.prio[t]];
      InsertMembers(l.items, if l.at == 0 then |l.items| else l.at - 1, t);
      StaysReady(WakeHead(s), t, s.prio[t]);
    } else {
      t := RivalWakes(WakeHead(s));
      var i :| 0 <= i < |Tasks(WakeHead(s).delayed)| && Tasks(WakeHead(s).delayed)[i] == t;
      assert Tasks(s.delayed)[i + 1] == t;
    }
  }

  /** Sleeper i of the list, and everybody before it, is due, and it has at least priority p. */
  ghost predicate DueRival(l: seq<Sleeper>, tick: nat, prio: map<Task, nat>, p: nat, i: nat) {
    && i < |l| && l[i].task in prio && prio[l[i].task] >= p
    && forall j :: 0 <= j <= i ==> l[j].value <= tick
  }

  lemma {:induction false} DueRivalTail(l: seq<Sleeper>, tick: nat, prio: map<Task, nat>, p: nat)
    requires l != [] && l[0].value <= tick && l[0].task in prio
    ensures (exists i: nat :: DueRival(l, tick, prio, p, i))
       <==> prio[l[0].task] >= p || exists i: nat :: DueRival(l[1..], tick, prio, p, i)
  {
    if i: nat :| DueRival(l, tick, prio, p, i) {
      assert i > 0 ==> DueRival(l[1..], tick, prio, p, i - 1);
    }
    if prio[l[0].task] >= p {
      assert DueRival(l, tick, prio, p, 0);
    }
    if i: nat :| DueRival(l[1..], tick, prio, p, i) {
      assert forall j :: 0 < j <= i + 1 ==> l[j] == l[1..][j - 1];
      assert DueRival(l, tick, prio, p, i + 1);
    }
  }

  /** The loop of a tick meets a rival exactly if one of the tasks it readies has at least the running priority. */
  lemma {:induction false} RivalExact(s: State)
    requires Sized(s) && s.current in s.prio
    ensures WakesRival(s) <==> exists i: nat :: DueRival(s.delayed, s.tick, s.prio, s.prio[s.current], i)
    decreases |s.delayed|
  {
    if s.delayed != [] && s.delayed[0].value <= s.tick {
      var r := WakeHead(s);
      HeadWoken(s);
      RivalExact(r);
      hide DueRival, WakeHead;
      DueRivalTail(s.delayed, s.tick, s.prio, s.prio[s.current]);
    }
  }

  lemma {:induction false} HeadWoken(s: State)
    requires Sized(s) && s.delayed != []
    ensures var r := WakeHead(s);
            r.delayed == s.delayed[1..] && r.tick == s.tick && r.prio == s.prio && r.current == s.current
  {
  }

  /** Some other task is ready at the running priority or above. */
  ghost predicate Rivalled(s: State)
    requires s.current in s.prio
  {
    exists t, p :: t != s.current && s.prio[s.current] <= p < |s.ready| && t in s.ready[p].items
  }

  lemma {:induction false} TwoOnList(s: State, items: seq<Task>)
    requires |items| > 1 && NoDup(items)
    ensures exists t :: t in items && t != s.current
  {
    assert items[0] in items && items[1] in items && items[0] != items[1];
  }

  /**
   * A tick asks for a switch if and only if, once it is over, another task of at least the
   * priority of the running one is ready.
   */
  lemma {:induction false} TickSwitchExact(s: State, g: Ledger)
    requires Inv(s, g) && s.lock == 0 && !s.yieldPending && s.current in g.place && g.place[s.current].Ready?
    requires s.current in s.prio && Served(s)
    ensures Sized(s) && IncrementTick(s).current in IncrementTick(s).prio
    ensures TickSwitch(s) <==> Rivalled(IncrementTick(s))
  {
    hide Inv, IncrementTick, Rivalled, Served;
    IdleReady(s, g);
    var r := IncrementTick(s);
    IncrementKeeps(s);
    TickExact(s, g);
    AfterTick(s, g);
    if TickSwitch(s) {
      SwitchRivals(s, g);
    } else {
      TickServed(s);
      NoRival(s, r);
    }
  }

  /** The running task is still ready, alone on its list if the list has one entry. */
  lemma {:induction false} AfterTick(s: State, g: Ledger)
    requires Inv(s, g) && s.lock == 0 && s.current in g.place && g.place[s.current].Ready?
    requires Sized(s) && Inv(IncrementTick(s), Ticked(s, g))
    ensures var r := IncrementTick(s);
            && s.current in s.prio && s.prio[s.current] < |r.ready| && s.current in r.ready[s.prio[s.current]].items
            && forall p :: 0 <= p < |r.ready| ==> NoDup(r.ready[p].items)
  {
    hide TickDue, TurnTick, SleepersOk, NoDup;
    IncrementKeeps(s);
    assert Ticked(s, g).place[s.current] == g.place[s.current];
  }

  lemma {:induction false} NoRival(s: State, r: State)
    requires Sized(s) && s.current in s.prio && r.current == s.current && r.prio == s.prio && |r.ready| == |s.ready|
    requires s.prio[s.current] < |r.ready| && s.current in r.ready[s.prio[s.current]].items
    requires |r.ready[s.prio[s.current]].items| <= 1 && !r.yieldPending && Served(r)
    ensures !Rivalled(r)
  {
  }

  lemma {:induction false} SwitchRivals(s: State, g: Ledger)
    requires Inv(s, g) && s.lock == 0 && !s.yieldPending && s.current in g.place && g.place[s.current].Ready?
    requires Sized(s) && s.current in s.prio && TickSwitch(s) && Inv(IncrementTick(s), Ticked(s, g))
    ensures IncrementTick(s).current in IncrementTick(s).prio && Rivalled(IncrementTick(s))
  {
    hide TickDue, WakesRival, SleepersOk, ReadyOk, NoDup;
    var r, p := IncrementTick(s), s.prio[s.current];
    IncrementKeeps(s);
    AfterTick(s, g);
    if |r.ready[p].items| > 1 {
      TwoOnList(s, r.ready[p].items);
    } else {
      var t := RivalWakes(TurnTick(s));
      AsleepNotRunning(s, g, t);
      assert t in r.ready[s.prio[t]].items;
    }
  }

  lemma {:induction false} AsleepNotRunning(s: State, g: Ledger, t: Task)
    requires Inv(s, g) && s.current in g.place && g.place[s.current].Ready? && t in Tasks(TurnTick(s).delayed)
    ensures t != s.current
  {
  }

  /** An event asks for a switch if and only if it readies a task above the running one, or one was asked for before. */
  lemma {:induction false} EventYields(s: State, t: Task)
    requires Sized(s) && t in s.prio && s.current in s.prio
    ensures RemoveFromEvent(s, t).yieldPending <==> s.yieldPending || s.prio[t] > s.prio[s.current]
  {
    YieldKept(s.(waiting := s.waiting - {t}), t);
  }

  lemma {:induction false} YieldKept(s: State, t: Task)
    requires Sized(s) && t in s.prio
    ensures Release(s, t).yieldPending == s.yieldPending
  {
  }

  /** So do the tasks readied at the end of a suspension, if one of them has at least the running priority. */
  lemma {:induction false} DrainYields(s: State)
    requires Drainable(s)
    ensures Drain(s).yieldPending <==>
              s.yieldPending || exists i :: 0 <= i < |s.pending| && s.prio[s.pending[i]] >= s.prio[s.current]
    decreases |s.pending|
  {
    if s.pending != [] {
      var r := DrainHead(s);
      YieldKept(s.(pending := s.pending[1..]), s.pending[0]);
      DrainYields(r);
      hide DrainHead, Drain, Drainable;
      assert forall i :: 0 <= i < |r.pending| ==> r.pending[i] == s.pending[i + 1];
      if i :| 0 <= i < |s.pending| && s.prio[s.pending[i]] >= s.prio[s.current] {
        assert i > 0 ==> r.prio[r.pending[i - 1]] >= r.prio[r.current];
      }
    }
  }

  // ------------------------------------------------------------- the next wake time

  /** The recorded next unblock time is that of the head of the delayed list, or the latest there is. */
  predicate UnblockKnown(s: State) {
    s.nextUnblock == if s.delayed == [] then MAX_DELAY else s.delayed[0].value
  }

  lemma {:induction false} DueKnown(s: State)
    requires Sized(s)
    ensures UnblockKnown(TickDue(s))
    decreases |s.delayed|
  {
    if s.delayed != [] && s.tick >= s.delayed[0].value {
      DueKnown(WakeHead(s));
    }
  }

  /** A tick keeps it known, and learns it whenever it works off the list or the lists change places. */
  lemma {:induction false} TickKnown(s: State)
    requires Sized(s) && s.lock == 0
    ensures UnblockKnown(s) || TurnTick(s).tick >= TurnTick(s).nextUnblock || s.tick + 1 == WRAP ==>
              UnblockKnown(IncrementTick(s))
  {
    DueKnown(TurnTick(s));
  }

  /** So does a task that blocks: only a wake time before all others becomes the next one. */
  lemma {:induction false} BlockKnown(s: State, g: Ledger, ticks: nat, forever: bool)
    requires Inv(s, g) && Sized(s) && s.current in s.prio && s.current in s.ready[s.prio[s.current]].items
    requires ticks < WRAP && UnblockKnown(s)
    ensures UnblockKnown(Block(s, ticks, forever))
  {
    hide ReadyOk, RingRemove, NoDup;
    var wake := if s.tick + ticks < WRAP then s.tick + ticks else s.tick + ticks - WRAP;
    var x := Sleeper(s.current, wake);
    if s.delayed == [] {
      assert AddSleeper(s.delayed, x) == [x];
    } else {
      var k := UpTo(Times(s.delayed), wake);
      assert AddSleeper(s.delayed, x)[0] == if k == 0 then x else s.delayed[0];
      assert k == 0 <==> Times(s.delayed)[0] > wake;
    }
  }

  // ---------------------------------------------------------- nested suspension

  /** While the scheduler is suspended no list of tasks that can run changes, and the running task stays. */
  lemma {:induction false} Frozen(s: State, t: Task)
    requires Sized(s) && s.lock > 0 && s.current in s.prio && t in s.prio && s.topReady < |s.ready|
    ensures forall r :: r in {IncrementTick(s), RemoveFromEvent(s, t), SwitchContext(s), SuspendAll(s)} ==>
              && r.ready == s.ready && r.current == s.current && r.delayed == s.delayed && r.overflow == s.overflow
              && r.tick == s.tick && r.lock >= s.lock
    ensures SwitchContext(s).yieldPending
    ensures IncrementTick(s).pendedTicks == s.pendedTicks + 1 && RemoveFromEvent(s, t).pending == s.pending + [t]
  {
  }

  ghost function Suspends(s: State, n: nat): (r: State)
    ensures r == s.(lock := r.lock)
  {
    if n == 0 then s else SuspendAll(Suspends(s, n - 1))
  }

  /** n suspensions take n resumptions: each but the last only takes back one of them. */
  lemma {:induction false} Nested(s: State, n: nat)
    requires Drainable(s) && n > 0
    ensures var r := Suspends(s, n);
            && Drainable(r) && r.lock > 0
            && (n > 1 || s.lock > 0 ==> ResumeAll(r) == Suspends(s, n - 1))
            && (n == 1 && s.lock == 0 ==> ResumeAll(r).lock == 0)
  {
    SuspendsCount(s, n);
    SuspendsCount(s, n - 1);
    if n == 1 && s.lock == 0 {
      var r := Suspends(s, n);
      var s1 := Drain(r).(lock := 0);
      var s2 := if r.pending != [] then ResetUnblock(s1) else s1;
      ReplayLock(s2, r.pendedTicks);
    }
  }

  lemma {:induction false} SuspendsCount(s: State, n: nat)
    ensures Suspends(s, n).lock == s.lock + n
  {
    if n > 0 {
      SuspendsCount(s, n - 1);
    }
  }

  lemma {:induction false} ReplayLock(s: State, n: nat)
    requires Sized(s) && s.current in s.prio
    ensures Replay(s, n).lock == s.lock
    decreases n
  {
    if n > 0 {
      IncrementKeeps(s);
      ReplayLock(IncrementTick(s).(yieldPending := s.yieldPending || TickSwitch(s)), n - 1);
    }
  }
}
