/**
 * Ready, delayed and suspended lists of FreeRTOS/Source/tasks.c.
 *
 * A `State` is what tasks.c keeps in its file-scope variables; the functions say
 * what each operation does to it.  The lists are sequences: that the linked lists
 * behave like these is shown in KernelList.  A `Ledger` records, for proofs only,
 * unbounded time, when each sleeping task is due, and in which list each task is.
 */
module Scheduler {
  import opened KernelList

  const WRAP: nat := 0x1_0000_0000
  const MAX_DELAY: nat := 0xffff_ffff

  /** Addition and subtraction on TickType_t. */
  function Plus(a: nat, b: nat): (c: nat)
    requires a < WRAP && b < WRAP
    ensures c < WRAP
  {
    if a + b < WRAP then a + b else a + b - WRAP
  }

  function Minus(a: nat, b: nat): (c: nat)
    requires a < WRAP && b < WRAP
    ensures c < WRAP && (b <= a ==> c == a - b)
  {
    if a >= b then a - b else a + WRAP - b
  }

  type Task = nat

  datatype Sleeper = Sleeper(task: Task, value: nat)

  /** A list of tasks and the position of its index: 0 is the sentinel, i > 0 is items[i - 1]. */
  datatype ReadyList = ReadyList(items: seq<Task>, at: nat)

  datatype State = State(
    tick: nat, overflows: nat, delayed: seq<Sleeper>, overflow: seq<Sleeper>, nextUnblock: nat,
    ready: seq<ReadyList>, topReady: nat, suspended: seq<Task>, pending: seq<Task>,
    current: Task, lock: nat, pendedTicks: nat, yieldPending: bool,
    prio: map<Task, nat>, waiting: set<Task>, idle: Task)

  datatype Place = Ready(p: nat) | Delayed | Overflow | Suspended

  datatype Ledger = Ledger(now: nat, due: map<Task, nat>, place: map<Task, Place>)

  // -------------------------------------------------------------- list pieces

  function Tasks(l: seq<Sleeper>): (r: seq<Task>)
    ensures |r| == |l| && forall i :: 0 <= i < |l| ==> r[i] == l[i].task
  {
    seq(|l|, i requires 0 <= i < |l| => l[i].task)
  }

  function Times(l: seq<Sleeper>): (r: seq<nat>)
    ensures |r| == |l| && forall i :: 0 <= i < |l| ==> r[i] == l[i].value
  {
    seq(|l|, i requires 0 <= i < |l| => l[i].value)
  }

  /** vListInsert of a state item. */
  function AddSleeper(l: seq<Sleeper>, x: Sleeper): seq<Sleeper> {
    InsertAt(l, UpTo(Times(l), x.value), x)
  }

  /** vListInsertEnd: right before the index. */
  function RingInsert(l: ReadyList, t: Task): (r: ReadyList)
    requires l.at <= |l.items|
    ensures r.at <= |r.items|
  {
    if l.at == 0 then ReadyList(InsertAt(l.items, |l.items|, t), 0)
    else ReadyList(InsertAt(l.items, l.at - 1, t), l.at + 1)
  }

  /** uxListRemove: an index on the removed item steps back. */
  function RingRemove(l: ReadyList, t: Task): (r: ReadyList)
    requires t in l.items && l.at <= |l.items|
    ensures r.at <= |r.items|
  {
    var k := PosOf(l.items, t);
    ReadyList(RemoveAt(l.items, k), if l.at > k then l.at - 1 else l.at)
  }

  // ----------------------------------------------------------- placing tasks

  /** The list holds exactly the tasks placed there, each once. */
  ghost predicate Holds(items: seq<Task>, place: map<Task, Place>, where: Place) {
    NoDup(items) && forall t :: t in items <==> t in place && place[t] == where
  }

  lemma {:induction false} InsertMembers<T>(s: seq<T>, k: nat, x: T)
    requires k <= |s|
    ensures forall y :: y in InsertAt(s, k, x) <==> y == x || y in s
  {
    var r := InsertAt(s, k, x);
    assert r == s[..k] + [x] + s[k..];
    assert s == s[..k] + s[k..];
  }

  lemma {:induction false} InsertNoDup<T(!new)>(s: seq<T>, k: nat, x: T)
    requires k <= |s| && NoDup(s) && x !in s
    ensures NoDup(InsertAt(s, k, x))
  {
    var r := InsertAt(s, k, x);
    forall i, j | 0 <= i < j < |r|
      ensures r[i] != r[j]
    {
      assert r[i] == if i < k then s[i] else if i == k then x else s[i - 1];
      assert r[j] == if j < k then s[j] else if j == k then x else s[j - 1];
    }
  }

  lemma {:induction false} RemoveNoDup<T(!new)>(s: seq<T>, k: nat)
    requires k < |s| && NoDup(s)
    ensures NoDup(RemoveAt(s, k)) && forall y :: y in RemoveAt(s, k) <==> y in s && y != s[k]
  {
    var r := RemoveAt(s, k);
    assert forall i :: 0 <= i < |r| ==> r[i] == if i < k then s[i] else s[i + 1];
    forall y | y in s && y != s[k]
      ensures y in r
    {
      var i :| 0 <= i < |s| && s[i] == y;
      assert r[if i < k then i else i - 1] == y;
    }
  }

  /** A task that joins a list. */
  lemma {:induction false} Joins(items: seq<Task>, place: map<Task, Place>, where: Place, k: nat, t: Task)
    requires Holds(items, place, where) && k <= |items| && (t !in place || place[t] != where)
    ensures Holds(InsertAt(items, k, t), place[t := where], where)
  {
    InsertMembers(items, k, t);
    InsertNoDup(items, k, t);
  }

  /** A task that leaves a list. */
  lemma {:induction false} Leaves(items: seq<Task>, place: map<Task, Place>, where: Place, t: Task, to: Place)
    requires Holds(items, place, where) && t in items && to != where
    ensures Holds(RemoveAt(items, PosOf(items, t)), place[t := to], where)
  {
    RemoveNoDup(items, PosOf(items, t));
  }

  /** A move between other lists. */
  lemma {:induction false} Stays(items: seq<Task>, place: map<Task, Place>, where: Place, t: Task, to: Place)
    requires Holds(items, place, where) && t !in items && to != where
    ensures Holds(items, place[t := to], where)
  {
  }

  lemma {:induction false} StaysAway(items: seq<Task>, place: map<Task, Place>, where: Place, t: Task, to: Place)
    requires Holds(items, place, where) && t in place && place[t] != where && to != where
    ensures Holds(items, place[t := to], where)
  {
  }

  // ------------------------------------------------------------- the invariant

  /** Each ready list holds the ready tasks of its priority; none above `top` holds any. */
  ghost predicate ReadyOk(ready: seq<ReadyList>, top: nat, prio: map<Task, nat>, place: map<Task, Place>) {
    && (forall p :: 0 <= p < |ready| ==> Holds(ready[p].items, place, Ready(p)) && ready[p].at <= |ready[p].items|)
    && (forall p :: top < p < |ready| ==> ready[p].items == [])
    && top < |ready|
    && (forall t :: t in prio ==> t in place && prio[t] < |ready|)
    && (forall t :: t in place ==> t in prio && (place[t].Ready? ==> place[t].p == prio[t]))
  }

  /** The list is in order and holds wake times of one era. */
  ghost predicate SleepersOk(l: seq<Sleeper>, place: map<Task, Place>, where: Place, due: map<Task, nat>, era: nat) {
    && Holds(Tasks(l), place, where) && Sorted(Times(l))
    && forall i :: 0 <= i < |l| ==> l[i].value < WRAP && l[i].task in due && due[l[i].task] == era * WRAP + l[i].value
  }

  /** Everything but how far the delayed list has been worked off. */
  ghost predicate Basic(s: State, g: Ledger) {
    && ReadyOk(s.ready, s.topReady, s.prio, g.place)
    && s.tick < WRAP && g.now == s.overflows * WRAP + s.tick
    && SleepersOk(s.delayed, g.place, Delayed, g.due, s.overflows)
    && SleepersOk(s.overflow, g.place, Overflow, g.due, s.overflows + 1)
    && Holds(s.suspended, g.place, Suspended)
    && NoDup(s.pending) && (forall t :: t in s.pending ==> t in g.place && !g.place[t].Ready?)
    && (forall t :: t in s.waiting ==> t in g.place && !g.place[t].Ready? && t !in s.pending)
    && (s.delayed != [] ==> s.nextUnblock <= s.delayed[0].value) && s.nextUnblock < WRAP
    && (s.lock == 0 ==> s.pending == []) && s.current in s.prio
    && s.idle in g.place && g.place[s.idle].Ready?
  }

  /** No sleeper is overdue: whoever sleeps is due in the future. */
  ghost predicate Inv(s: State, g: Ledger) {
    Basic(s, g) && forall i :: 0 <= i < |s.delayed| ==> s.delayed[i].value > s.tick
  }

  /** In a state that keeps the invariant every sleeping task is due strictly later than now. */
  lemma {:induction false} SleepersAreDueLater(s: State, g: Ledger, t: Task)
    requires Inv(s, g) && t in g.place && (g.place[t] == Delayed || g.place[t] == Overflow)
    ensures t in g.due && g.due[t] > g.now
  {
    if g.place[t] == Delayed {
      var i :| 0 <= i < |s.delayed| && Tasks(s.delayed)[i] == t;
    } else {
      var i :| 0 <= i < |s.overflow| && Tasks(s.overflow)[i] == t;
    }
  }

  /** The scheduler before anything has happened: the idle task is ready and running. */
  function Boot(levels: nat, idle: Task): State
    requires 0 < levels
  {
    State(0, 0, [], [], MAX_DELAY, seq(levels, p => ReadyList(if p == 0 then [idle] else [], 0)), 0, [], [],
          idle, 0, 0, false, map[idle := 0], {}, idle)
  }

  lemma {:induction false} BootInv(levels: nat, idle: Task)
    requires 0 < levels
    ensures Inv(Boot(levels, idle), Ledger(0, map[], map[idle := Ready(0)]))
  {
    var none: seq<Sleeper> := [];
    assert Tasks(none) == [];
  }

  // ------------------------------------------------------------------ readying

  /** Every index is in range. */
  predicate Sized(s: State) {
    && (forall p :: 0 <= p < |s.ready| ==> s.ready[p].at <= |s.ready[p].items|)
    && (forall t :: t in s.prio ==> s.prio[t] < |s.ready|)
    && (forall i :: 0 <= i < |s.delayed| ==> s.delayed[i].task in s.prio)
    && (forall i :: 0 <= i < |s.overflow| ==> s.overflow[i].task in s.prio)
  }

  lemma {:induction false} BasicSized(s: State, g: Ledger)
    requires Basic(s, g)
    ensures Sized(s)
  {
    forall i | 0 <= i < |s.delayed|
      ensures s.delayed[i].task in s.prio
    {
      assert Tasks(s.delayed)[i] in Tasks(s.delayed);
    }
    forall i | 0 <= i < |s.overflow|
      ensures s.overflow[i].task in s.prio
    {
      assert Tasks(s.overflow)[i] in Tasks(s.overflow);
    }
  }

  /** prvAddTaskToReadyList */
  function MakeReady(s: State, t: Task): (r: State)
    requires Sized(s) && t in s.prio
    ensures Sized(r)
  {
    var p := s.prio[t];
    s.(ready := s.ready[p := RingInsert(s.ready[p], t)], topReady := if p > s.topReady then p else s.topReady)
  }

  lemma {:induction false} ReadyMove(s: State, place: map<Task, Place>, t: Task)
    requires ReadyOk(s.ready, s.topReady, s.prio, place) && Sized(s) && t in place && !place[t].Ready?
    ensures t in s.prio
    ensures ReadyOk(MakeReady(s, t).ready, MakeReady(s, t).topReady, s.prio, place[t := Ready(s.prio[t])])
  {
    var r, p, place' := MakeReady(s, t), s.prio[t], place[t := Ready(s.prio[t])];
    forall q | 0 <= q < |r.ready|
      ensures Holds(r.ready[q].items, place', Ready(q)) && r.ready[q].at <= |r.ready[q].items|
    {
      if q == p {
        var l := s.ready[p];
        Joins(l.items, place, Ready(p), if l.at == 0 then |l.items| else l.at - 1, t);
      } else {
        Stays(s.ready[q].items, place, Ready(q), t, Ready(p));
      }
    }
  }

  // -------------------------------------------------------------------- ticking

  /** The task at the head of the delayed list leaves it, and its event list if it is in one. */
  function WakeHead(s: State): (r: State)
    requires Sized(s) && s.delayed != []
    ensures Sized(r) && |r.delayed| < |s.delayed|
  {
    var t := s.delayed[0].task;
    MakeReady(s.(delayed := s.delayed[1..], waiting := s.waiting - {t}), t)
  }

  /** The loop of xTaskIncrementTick over the delayed list. */
  function TickDue(s: State): (r: State)
    requires Sized(s)
    ensures Sized(r)
    decreases |s.delayed|
  {
    if s.delayed == [] then s.(nextUnblock := MAX_DELAY)
    else if s.tick < s.delayed[0].value then s.(nextUnblock := s.delayed[0].value)
    else TickDue(WakeHead(s))
  }

  /** prvResetNextTaskUnblockTime */
  function ResetUnblock(s: State): State {
    s.(nextUnblock := if s.delayed == [] then MAX_DELAY else s.delayed[0].value)
  }

  /** The tick count moves on; at a wrap the two lists change places. */
  function TurnTick(s: State): State {
    if s.tick + 1 < WRAP then s.(tick := s.tick + 1)
    else ResetUnblock(s.(tick := 0, delayed := s.overflow, overflow := s.delayed, overflows := s.overflows + 1))
  }

  /** xTaskIncrementTick */
  function IncrementTick(s: State): (r: State)
    requires Sized(s)
    ensures Sized(r)
  {
    if s.lock > 0 then s.(pendedTicks := s.pendedTicks + 1)
    else
      var s1 := TurnTick(s);
      if s1.tick >= s1.nextUnblock then TickDue(s1) else s1
  }

  function Woken(s: State, g: Ledger): Ledger
    requires s.delayed != [] && s.delayed[0].task in s.prio
  {
    g.(place := g.place[s.delayed[0].task := Ready(s.prio[s.delayed[0].task])])
  }

  lemma {:induction false} SleeperLeaves(l: seq<Sleeper>, place: map<Task, Place>, where: Place, due: map<Task, nat>,
                                         era: nat, to: Place)
    requires SleepersOk(l, place, where, due, era) && l != [] && to != where
    ensures SleepersOk(l[1..], place[l[0].task := to], where, due, era)
    ensures l[0].task in place && place[l[0].task] == where
  {
    var ts := Tasks(l);
    assert ts[0] in ts;
    assert Tasks(l[1..]) == RemoveAt(ts, PosOf(ts, ts[0]));
    Leaves(ts, place, where, ts[0], to);
    assert forall i :: 0 <= i < |l[1..]| ==> Times(l[1..])[i] == Times(l)[i + 1];
  }

  lemma {:induction false} SleepersStay(l: seq<Sleeper>, place: map<Task, Place>, where: Place, due: map<Task, nat>,
                                        era: nat, t: Task, to: Place)
    requires SleepersOk(l, place, where, due, era) && t in place && place[t] != where && to != where
    ensures SleepersOk(l, place[t := to], where, due, era)
  {
    Stays(Tasks(l), place, where, t, to);
  }

  lemma {:induction false} WakeBasic(s: State, g: Ledger)
    requires Basic(s, g) && s.delayed != [] && s.lock == 0
    ensures Sized(s) && Basic(WakeHead(s), Woken(s, g))
  {
    hide Holds, ReadyOk, SleepersOk, RingInsert, Tasks, Times, NoDup;
    BasicSized(s, g);
    var t := s.delayed[0].task;
    var to := Ready(s.prio[t]);
    SleeperLeaves(s.delayed, g.place, Delayed, g.due, s.overflows, to);
    ReadyMove(s, g.place, t);
    SleepersStay(s.overflow, g.place, Overflow, g.due, s.overflows + 1, t, to);
    StaysAway(s.suspended, g.place, Suspended, t, to);
    NextHead(s.delayed, g.place, g.due, s.overflows);
  }

  lemma {:induction false} NextHead(l: seq<Sleeper>, place: map<Task, Place>, due: map<Task, nat>, era: nat)
    requires SleepersOk(l, place, Delayed, due, era)
    ensures |l| > 1 ==> l[0].value <= l[1].value
  {
    assert |l| > 1 ==> Times(l)[0] <= Times(l)[1];
  }

  predicate Asleep(p: Place) {
    p == Delayed || p == Overflow
  }

  /** Where a task is after the tick that takes time to `time`. */
  function PlaceAt(s: State, g: Ledger, t: Task, time: nat, flip: bool): Place
    requires t in g.place
  {
    if Asleep(g.place[t]) && t in g.due && g.due[t] == time && t in s.prio then Ready(s.prio[t])
    else if flip && g.place[t] == Overflow then Delayed
    else g.place[t]
  }

  function Placed(s: State, g: Ledger, time: nat, flip: bool): (m: map<Task, Place>)
    ensures m.Keys == g.place.Keys
    ensures forall t :: t in m ==> m[t] == PlaceAt(s, g, t, time, flip)
  {
    map t | t in g.place :: PlaceAt(s, g, t, time, flip)
  }

  /** Working off the delayed list readies the tasks that are due now, and no others. */
  lemma {:induction false} TickDueInv(s: State, g: Ledger)
    requires Basic(s, g) && s.lock == 0 && forall i :: 0 <= i < |s.delayed| ==> s.delayed[i].value >= s.tick
    ensures Sized(s) && Inv(TickDue(s), g.(place := Placed(s, g, g.now, false)))
    decreases |s.delayed|
  {
    hide ReadyOk, NoDup, RingInsert;
    BasicSized(s, g);
    if s.delayed == [] || s.tick < s.delayed[0].value {
      NoneDue(s, g);
      assert Placed(s, g, g.now, false) == g.place;
      InOrder(s.delayed, g.place, g.due, s.overflows);
    } else {
      WakeBasic(s, g);
      TickDueInv(WakeHead(s), Woken(s, g));
      OneDue(s, g);
    }
  }

  lemma {:induction false} InOrder(l: seq<Sleeper>, place: map<Task, Place>, due: map<Task, nat>, era: nat)
    requires SleepersOk(l, place, Delayed, due, era)
    ensures forall i :: 0 <= i < |l| ==> l[0].value <= l[i].value
  {
    forall i | 0 <= i < |l|
      ensures l[0].value <= l[i].value
    {
      assert i > 0 ==> Times(l)[0] <= Times(l)[i];
    }
  }

  /** With the head of the delayed list in the future, nobody is due. */
  lemma {:induction false} NoneDue(s: State, g: Ledger)
    requires Basic(s, g) && (s.delayed != [] ==> s.tick < s.delayed[0].value)
    ensures forall t :: t in g.place && Asleep(g.place[t]) ==> t in g.due && g.due[t] != g.now
  {
    hide ReadyOk, NoDup;
    InOrder(s.delayed, g.place, g.due, s.overflows);
    forall t | t in g.place && Asleep(g.place[t])
      ensures t in g.due && g.due[t] != g.now
    {
      if g.place[t] == Delayed {
        var i :| 0 <= i < |s.delayed| && Tasks(s.delayed)[i] == t;
      } else {
        var i :| 0 <= i < |s.overflow| && Tasks(s.overflow)[i] == t;
      }
    }
  }

  /** Readying the head first and the others after it comes to the same. */
  lemma {:induction false} OneDue(s: State, g: Ledger)
    requires Basic(s, g) && Sized(s) && s.delayed != [] && s.delayed[0].value == s.tick
    ensures Placed(WakeHead(s), Woken(s, g), g.now, false) == Placed(s, g, g.now, false)
  {
    hide ReadyOk, NoDup, RingInsert;
    var t := s.delayed[0].task;
    assert Tasks(s.delayed)[0] == t;
    assert t in g.place && g.place[t] == Delayed && g.due[t] == g.now;
    forall u | u in g.place
      ensures PlaceAt(WakeHead(s), Woken(s, g), u, g.now, false) == PlaceAt(s, g, u, g.now, false)
    {
    }
  }

  lemma {:induction false} SleepTimes(l: seq<Sleeper>, place: map<Task, Place>, where: Place, due: map<Task, nat>,
                                      era: nat)
    requires SleepersOk(l, place, where, due, era)
    ensures forall i :: 0 <= i < |l| ==> l[i].value < WRAP
  {
  }

  predicate Wraps(s: State) {
    s.tick + 1 == WRAP
  }

  /** The current list is empty when the tick count wraps, and then the overflow list takes its place. */
  lemma {:induction false} TurnBasic(s: State, g: Ledger)
    requires Inv(s, g)
    ensures Wraps(s) ==> s.delayed == []
    ensures var r := TurnTick(s);
            && Basic(r, Ledger(g.now + 1, g.due, if Wraps(s) then Flipped(g.place) else g.place))
            && r.lock == s.lock && forall i :: 0 <= i < |r.delayed| ==> r.delayed[i].value >= r.tick
  {
    hide NoDup, RingInsert, Holds, ReadyOk, SleepersOk;
    if s.delayed != [] {
      assert s.delayed[0].value > s.tick;
      SleepTimes(s.delayed, g.place, Delayed, g.due, s.overflows);
    }
    SleepTimes(s.overflow, g.place, Overflow, g.due, s.overflows + 1);
    if Wraps(s) {
      FlipReady(s.ready, s.topReady, s.prio, g.place);
      FlipLists(s, g);
    }
  }

  function Flipped(place: map<Task, Place>): (m: map<Task, Place>)
    ensures m.Keys == place.Keys
    ensures forall t :: t in m ==> m[t] == if place[t] == Overflow then Delayed else place[t]
  {
    map t | t in place :: if place[t] == Overflow then Delayed else place[t]
  }

  lemma {:induction false} FlipReady(ready: seq<ReadyList>, top: nat, prio: map<Task, nat>, place: map<Task, Place>)
    requires ReadyOk(ready, top, prio, place)
    ensures ReadyOk(ready, top, prio, Flipped(place))
  {
  }

  lemma {:induction false} FlipLists(s: State, g: Ledger)
    requires Basic(s, g) && s.delayed == []
    ensures SleepersOk(s.overflow, Flipped(g.place), Delayed, g.due, s.overflows + 1)
    ensures SleepersOk([], Flipped(g.place), Overflow, g.due, s.overflows + 2)
    ensures Holds(s.suspended, Flipped(g.place), Suspended)
  {
    hide ReadyOk, RingInsert;
    assert forall t :: t in g.place ==> g.place[t] != Delayed by {
      assert Holds(Tasks(s.delayed), g.place, Delayed);
    }
  }

  /**
   * A tick readies exactly the tasks that are due at the new time, and keeps the invariant.
   */
  lemma {:induction false} TickExact(s: State, g: Ledger)
    requires Inv(s, g) && s.lock == 0
    ensures Sized(s) && Inv(IncrementTick(s), Ledger(g.now + 1, g.due, Placed(s, g, g.now + 1, Wraps(s))))
  {
    hide Basic, TickDue, ReadyOk, SleepersOk, Sized;
    BasicSized(s, g);
    TurnBasic(s, g);
    var r := TurnTick(s);
    var g1 := Ledger(g.now + 1, g.due, if Wraps(s) then Flipped(g.place) else g.place);
    TurnPlaces(s, g, r, g1);
    if r.tick >= r.nextUnblock {
      TickDueInv(r, g1);
    } else {
      NotYet(r, g1);
    }
  }

  lemma {:induction false} TurnPlaces(s: State, g: Ledger, r: State, g1: Ledger)
    requires Inv(s, g) && r.prio == s.prio && g1.now == g.now + 1 && g1.due == g.due
    requires g1.place == if Wraps(s) then Flipped(g.place) else g.place
    ensures Placed(r, g1, g1.now, false) == Placed(s, g, g.now + 1, Wraps(s))
  {
    hide Basic;
  }

  lemma {:induction false} NotYet(r: State, g: Ledger)
    requires Basic(r, g) && r.tick < r.nextUnblock
    ensures Inv(r, g) && Placed(r, g, g.now, false) == g.place
  {
    hide ReadyOk, NoDup;
    InOrder(r.delayed, g.place, g.due, r.overflows);
    NoneDue(r, g);
  }

  // ------------------------------------------------------------------- blocking

  /** prvAddCurrentTaskToDelayedList */
  function Block(s: State, ticks: nat, forever: bool): State
    requires Sized(s) && s.current in s.prio && s.current in s.ready[s.prio[s.current]].items
  {
    var p, t := s.prio[s.current], s.current;
    var s1 := s.(ready := s.ready[p := RingRemove(s.ready[p], t)]);
    var wake := if s.tick + ticks < WRAP then s.tick + ticks else s.tick + ticks - WRAP;
    if forever && ticks == MAX_DELAY then s1.(suspended := s.suspended + [t])
    else if wake < s.tick then s1.(overflow := AddSleeper(s.overflow, Sleeper(t, wake)))
    else s1.(delayed := AddSleeper(s.delayed, Sleeper(t, wake)),
              nextUnblock := if wake < s.nextUnblock then wake else s.nextUnblock)
  }

  /** The list a task goes to when it blocks. */
  function BlockPlace(s: State, ticks: nat, forever: bool): Place {
    if forever && ticks == MAX_DELAY then Suspended else if s.tick + ticks < WRAP then Delayed else Overflow
  }

  function Blocked(s: State, g: Ledger, ticks: nat, forever: bool): Ledger {
    Ledger(g.now, g.due[s.current := g.now + ticks], g.place[s.current := BlockPlace(s, ticks, forever)])
  }

  lemma {:induction false} ReadyLeave(ready: seq<ReadyList>, top: nat, prio: map<Task, nat>, place: map<Task, Place>,
                                      t: Task, to: Place)
    requires ReadyOk(ready, top, prio, place) && t in place && place[t].Ready? && !to.Ready?
    ensures t in prio && prio[t] < |ready| && t in ready[prio[t]].items
    ensures ReadyOk(ready[prio[t] := RingRemove(ready[prio[t]], t)], top, prio, place[t := to])
  {
    var p := prio[t];
    var r := ready[p := RingRemove(ready[p], t)];
    Leaves(ready[p].items, place, Ready(p), t, to);
    forall q | 0 <= q < |r|
      ensures Holds(r[q].items, place[t := to], Ready(q)) && r[q].at <= |r[q].items|
    {
      if q != p {
        StaysAway(ready[q].items, place, Ready(q), t, to);
      }
    }
  }

  lemma {:induction false} SleeperJoins(l: seq<Sleeper>, place: map<Task, Place>, where: Place, due: map<Task, nat>,
                                        era: nat, x: Sleeper)
    requires SleepersOk(l, place, where, due, era) && x.value < WRAP && (x.task !in place || place[x.task] != where)
    ensures SleepersOk(AddSleeper(l, x), place[x.task := where], where, due[x.task := era * WRAP + x.value], era)
  {
    hide Holds, Sorted, Tasks, Times;
    var k := UpTo(Times(l), x.value);
    Joins(Tasks(l), place, where, k, x.task);
    InsertSorted(Times(l), x.value);
    InsertParts(l, k, x);
    DueAfterInsert(l, place, where, due, era, k, x);
  }

  lemma {:induction false} InsertParts(l: seq<Sleeper>, k: nat, x: Sleeper)
    requires k <= |l|
    ensures Tasks(InsertAt(l, k, x)) == InsertAt(Tasks(l), k, x.task)
    ensures Times(InsertAt(l, k, x)) == InsertAt(Times(l), k, x.value)
  {
  }

  lemma {:induction false} DueAfterInsert(l: seq<Sleeper>, place: map<Task, Place>, where: Place, due: map<Task, nat>,
                                          era: nat,
                                          k: nat, x: Sleeper)
    requires SleepersOk(l, place, where, due, era) && k <= |l| && x.value < WRAP
    requires (x.task !in place || place[x.task] != where)
    ensures var r, due' := InsertAt(l, k, x), due[x.task := era * WRAP + x.value];
            forall i :: 0 <= i < |r| ==>
                r[i].value < WRAP && r[i].task in due' && due'[r[i].task] == era * WRAP + r[i].value
  {
    hide Sorted, NoDup;
    var r := InsertAt(l, k, x);
    forall i | 0 <= i < |r| && i != k
      ensures r[i].task != x.task && r[i] in l
    {
      var j := if i < k then i else i - 1;
      assert r[i] == l[j] && Tasks(l)[j] in Tasks(l);
    }
  }

  lemma {:induction false} SleepersKeep(l: seq<Sleeper>, place: map<Task, Place>, where: Place, due: map<Task, nat>,
                                        era: nat,
                                        t: Task, to: Place, time: nat)
    requires SleepersOk(l, place, where, due, era) && t in place && place[t] != where && to != where
    ensures SleepersOk(l, place[t := to], where, due[t := time], era)
  {
    Stays(Tasks(l), place, where, t, to);
    forall i | 0 <= i < |l|
      ensures l[i].task != t
    {
      assert Tasks(l)[i] in Tasks(l);
    }
  }

  /** A task that blocks for n >= 1 ticks sleeps in the list of its wake era and is due at now + n. */
  lemma {:induction false} BlockInv(s: State, g: Ledger, ticks: nat, forever: bool)
    requires Inv(s, g) && 1 <= ticks < WRAP && s.current != s.idle && s.current in g.place && g.place[s.current].Ready?
    ensures Sized(s) && s.current in s.prio && s.current in s.ready[s.prio[s.current]].items
    ensures Inv(Block(s, ticks, forever), Blocked(s, g, ticks, forever))
  {
    hide ReadyOk, SleepersOk, Holds, NoDup, RingRemove, AddSleeper;
    BasicSized(s, g);
    var t, to := s.current, BlockPlace(s, ticks, forever);
    var due := g.now + ticks;
    ReadyLeave(s.ready, s.topReady, s.prio, g.place, t, to);
    var wake := if s.tick + ticks < WRAP then s.tick + ticks else s.tick + ticks - WRAP;
    if to == Delayed {
      SleeperJoins(s.delayed, g.place, Delayed, g.due, s.overflows, Sleeper(t, wake));
      Earliest(s.delayed, Sleeper(t, wake));
    } else {
      SleepersKeep(s.delayed, g.place, Delayed, g.due, s.overflows, t, to, due);
    }
    if to == Overflow {
      SleeperJoins(s.overflow, g.place, Overflow, g.due, s.overflows + 1, Sleeper(t, wake));
    } else {
      SleepersKeep(s.overflow, g.place, Overflow, g.due, s.overflows + 1, t, to, due);
    }
    if to == Suspended {
      Joins(s.suspended, g.place, Suspended, |s.suspended|, t);
      assert InsertAt(s.suspended, |s.suspended|, t) == s.suspended + [t];
    } else {
      StaysAway(s.suspended, g.place, Suspended, t, to);
    }
  }

  /** The new sleeper is among the list, and the head is the old head or the new one. */
  lemma {:induction false} Earliest(l: seq<Sleeper>, x: Sleeper)
    ensures var r := AddSleeper(l, x);
            && r != [] && (r[0] == x || (l != [] && r[0] == l[0]))
            && forall i :: 0 <= i < |r| ==> r[i] == x || r[i] in l
  {
    InsertMembers(l, UpTo(Times(l), x.value), x);
  }

  // ------------------------------------------------------------------ unblocking

  /** uxListRemove of a state item that is in one of the lists of blocked tasks. */
  function Unlist(s: State, t: Task): State {
    if t in Tasks(s.delayed) then s.(delayed := RemoveAt(s.delayed, PosOf(Tasks(s.delayed), t)))
    else if t in Tasks(s.overflow) then s.(overflow := RemoveAt(s.overflow, PosOf(Tasks(s.overflow), t)))
    else if t in s.suspended then s.(suspended := RemoveAt(s.suspended, PosOf(s.suspended, t)))
    else s
  }

  lemma {:induction false} UnlistSized(s: State, t: Task)
    requires Sized(s)
    ensures Sized(Unlist(s, t)) && Unlist(s, t).prio == s.prio
  {
  }

  /** The task goes from whichever list it blocks in to its ready list. */
  function Release(s: State, t: Task): (r: State)
    requires Sized(s) && t in s.prio
    ensures Sized(r) && r.prio == s.prio
  {
    UnlistSized(s, t);
    MakeReady(Unlist(s, t), t)
  }

  lemma {:induction false} SleeperOut(l: seq<Sleeper>, place: map<Task, Place>, where: Place, due: map<Task, nat>,
                                      era: nat, t: Task, to: Place)
    requires SleepersOk(l, place, where, due, era) && t in place && place[t] == where && to != where
    ensures t in Tasks(l)
    ensures var r := RemoveAt(l, PosOf(Tasks(l), t));
            && SleepersOk(r, place[t := to], where, due, era)
            && (forall i :: 0 <= i < |r| ==> r[i] in l)
            && (r != [] ==> l != [] && l[0].value <= r[0].value)
  {
    hide NoDup, Tasks, Times, Sorted;
    Leaves(Tasks(l), place, where, t, to);
    RemoveParts(l, PosOf(Tasks(l), t));
  }

  lemma {:induction false} RemoveParts(l: seq<Sleeper>, k: nat)
    requires k < |l| && Sorted(Times(l))
    ensures var r := RemoveAt(l, k);
            && Tasks(r) == RemoveAt(Tasks(l), k) && Sorted(Times(r))
            && (forall i :: 0 <= i < |r| ==> r[i] == l[if i < k then i else i + 1])
            && (r != [] ==> l[0].value <= r[0].value)
  {
    var r := RemoveAt(l, k);
    assert forall i :: 0 <= i < |r| ==> Times(r)[i] == Times(l)[if i < k then i else i + 1];
    assert |l| > 1 ==> Times(l)[0] <= Times(l)[1];
  }

  lemma {:induction false} ReleaseInv(s: State, g: Ledger, t: Task)
    requires Inv(s, g) && t in g.place && !g.place[t].Ready? && t !in s.waiting && t !in s.pending
    ensures Sized(s) && t in s.prio && Inv(Release(s, t), g.(place := g.place[t := Ready(s.prio[t])]))
  {
    hide ReadyOk, SleepersOk, Holds, NoDup, RingInsert, Tasks, Times, RemoveAt, PosOf;
    BasicSized(s, g);
    ReadyMove(s, g.place, t);
    Where(s, g, t);
    var to := Ready(s.prio[t]);
    if g.place[t] == Delayed {
      SleeperOut(s.delayed, g.place, Delayed, g.due, s.overflows, t, to);
    } else {
      SleepersStay(s.delayed, g.place, Delayed, g.due, s.overflows, t, to);
    }
    if g.place[t] == Overflow {
      SleeperOut(s.overflow, g.place, Overflow, g.due, s.overflows + 1, t, to);
    } else {
      SleepersStay(s.overflow, g.place, Overflow, g.due, s.overflows + 1, t, to);
    }
    if g.place[t] == Suspended {
      Leaves(s.suspended, g.place, Suspended, t, to);
    } else {
      StaysAway(s.suspended, g.place, Suspended, t, to);
    }
  }

  lemma {:induction false} Where(s: State, g: Ledger, t: Task)
    requires Basic(s, g) && t in g.place
    ensures t in Tasks(s.delayed) <==> g.place[t] == Delayed
    ensures t in Tasks(s.overflow) <==> g.place[t] == Overflow
    ensures t in s.suspended <==> g.place[t] == Suspended
  {
  }

  /** xTaskRemoveFromEventList, for the task at the head of the event list. */
  function RemoveFromEvent(s: State, t: Task): (r: State)
    requires Sized(s) && t in s.prio && s.current in s.prio
    ensures r.prio == s.prio
  {
    var s1 := s.(waiting := s.waiting - {t});
    var s2 := if s.lock == 0 then Release(s1, t) else s1.(pending := s.pending + [t]);
    if s.prio[t] > s.prio[s.current] then s2.(yieldPending := true) else s2
  }

  lemma {:induction false} RemoveFromEventInv(s: State, g: Ledger, t: Task)
    requires Inv(s, g) && t in s.waiting
    ensures Sized(s) && t in s.prio
    ensures Inv(RemoveFromEvent(s, t), if s.lock == 0 then g.(place := g.place[t := Ready(s.prio[t])]) else g)
  {
    hide ReadyOk, SleepersOk, Holds, Unlist, MakeReady;
    BasicSized(s, g);
    Known(s, g, t);
    var s1 := s.(waiting := s.waiting - {t});
    if s.lock == 0 {
      ReleaseInv(s1, g, t);
      YieldToo(Release(s1, t), g.(place := g.place[t := Ready(s.prio[t])]));
    }
  }

  lemma {:induction false} Known(s: State, g: Ledger, t: Task)
    requires Basic(s, g) && t in g.place
    ensures t in s.prio
  {
  }

  lemma {:induction false} YieldToo(s: State, g: Ledger)
    requires Inv(s, g)
    ensures Inv(s.(yieldPending := true), g)
  {
  }

  // ------------------------------------------------------------------ resuming

  predicate Drainable(s: State) {
    Sized(s) && s.current in s.prio && forall t :: t in s.pending ==> t in s.prio
  }

  /** The first task readied while the scheduler was suspended goes to its ready list. */
  function DrainHead(s: State): (r: State)
    requires Drainable(s) && s.pending != []
    ensures Drainable(r) && r.prio == s.prio && r.current == s.current && r.pending == s.pending[1..]
    ensures r.lock == s.lock && r.pendedTicks == s.pendedTicks
  {
    var t, s0 := s.pending[0], s.(pending := s.pending[1..]);
    ReleaseKeeps(s0, t);
    var s1 := Release(s0, t);
    if s.prio[t] >= s.prio[s.current] then s1.(yieldPending := true) else s1
  }

  /** The loop of xTaskResumeAll over the tasks readied while the scheduler was suspended. */
  function Drain(s: State): (r: State)
    requires Drainable(s)
    ensures Sized(r) && r.prio == s.prio && r.current == s.current
    ensures r.pending == [] && r.lock == s.lock && r.pendedTicks == s.pendedTicks
    decreases |s.pending|
  {
    if s.pending == [] then s else Drain(DrainHead(s))
  }

  /** Everything pending becomes ready. */
  function Drained(place: map<Task, Place>, pending: seq<Task>, prio: map<Task, nat>): (m: map<Task, Place>)
    ensures m.Keys == place.Keys
    ensures forall t :: t in m ==> m[t] == if t in pending && t in prio then Ready(prio[t]) else place[t]
  {
    map t | t in place :: if t in pending && t in prio then Ready(prio[t]) else place[t]
  }

  lemma {:induction false} InvDrainable(s: State, g: Ledger)
    requires Inv(s, g)
    ensures Drainable(s)
  {
    hide ReadyOk, SleepersOk, Holds, Sized;
    BasicSized(s, g);
    forall t | t in s.pending
      ensures t in s.prio
    {
      Known(s, g, t);
    }
  }

  lemma {:induction false} DrainHeadInv(s: State, g: Ledger)
    requires Inv(s, g) && s.lock > 0 && Drainable(s) && s.pending != []
    ensures Inv(DrainHead(s), g.(place := g.place[s.pending[0] := Ready(s.prio[s.pending[0]])]))
  {
    hide Inv, Release, Sized;
    var t := s.pending[0];
    var s0 := s.(pending := s.pending[1..]);
    OneLess(s, g);
    ReleaseInv(s0, g, t);
    YieldToo(Release(s0, t), g.(place := g.place[t := Ready(s.prio[t])]));
  }

  lemma {:induction false} DrainedHead(s: State, g: Ledger)
    requires Inv(s, g) && s.lock > 0 && Drainable(s) && s.pending != []
    ensures var t := s.pending[0];
            && t in s.prio
            && Drained(g.place[t := Ready(s.prio[t])], s.pending[1..], s.prio) == Drained(g.place, s.pending, s.prio)
  {
    hide Inv, Sized;
    OneLess(s, g);
  }

  lemma {:induction false} DrainInv(s: State, g: Ledger)
    requires Inv(s, g) && s.lock > 0
    ensures Drainable(s) && Inv(Drain(s), g.(place := Drained(g.place, s.pending, s.prio)))
    decreases |s.pending|
  {
    hide Inv, Drainable, DrainHead;
    InvDrainable(s, g);
    if s.pending == [] {
      assert Drained(g.place, s.pending, s.prio) == g.place;
    } else {
      DrainHeadInv(s, g);
      DrainedHead(s, g);
      DrainInv(DrainHead(s), g.(place := g.place[s.pending[0] := Ready(s.prio[s.pending[0]])]));
    }
  }

  lemma {:induction false} OneLess(s: State, g: Ledger)
    requires Inv(s, g) && s.lock > 0 && s.pending != []
    ensures Inv(s.(pending := s.pending[1..]), g)
    ensures s.pending[0] !in s.pending[1..] && s.pending[0] in g.place && !g.place[s.pending[0]].Ready?
    ensures s.pending[0] !in s.waiting
    ensures forall t :: t in s.pending <==> t == s.pending[0] || t in s.pending[1..]
  {
    hide ReadyOk, SleepersOk, Holds;
    assert s.pending == [s.pending[0]] + s.pending[1..];
  }

  lemma {:induction false} ReleaseKeeps(s: State, t: Task)
    requires Sized(s) && t in s.prio
    ensures var r := Release(s, t);
            && r.pending == s.pending && r.lock == s.lock && r.pendedTicks == s.pendedTicks && r.current == s.current
            && r.waiting == s.waiting && r.tick == s.tick && r.overflows == s.overflows && r.idle == s.idle
  {
  }

  /** What xTaskIncrementTick returns: whether a context switch is called for. */
  function TickSwitch(s: State): bool
    requires Sized(s) && s.current in s.prio
  {
    IncrementKeeps(s);
    || s.yieldPending
    || (s.lock == 0 && (|IncrementTick(s).ready[s.prio[s.current]].items| > 1 || TickRival(TurnTick(s))))
  }

  function TickRival(s: State): bool
    requires Sized(s) && s.current in s.prio
  {
    s.tick >= s.nextUnblock && WakesRival(s)
  }

  /** Some task that is due has at least the priority of the running one. */
  function WakesRival(s: State): bool
    requires Sized(s) && s.current in s.prio
    decreases |s.delayed|
  {
    s.delayed != [] && s.tick >= s.delayed[0].value
    && (s.prio[s.delayed[0].task] >= s.prio[s.current] || WakesRival(WakeHead(s)))
  }

  /** Ticks that were pended are worked off one by one. */
  function Replay(s: State, n: nat): (r: State)
    requires Sized(s) && s.current in s.prio
    ensures Sized(r)
    decreases n
  {
    if n == 0 then s
    else
      IncrementKeeps(s);
      Replay(IncrementTick(s).(yieldPending := s.yieldPending || TickSwitch(s)), n - 1)
  }

  lemma {:induction false} IncrementKeeps(s: State)
    requires Sized(s)
    ensures var r := IncrementTick(s);
            && r.current == s.current && r.prio == s.prio && r.lock == s.lock && r.pending == s.pending
            && r.idle == s.idle
            && |r.ready| == |s.ready| && r.yieldPending == s.yieldPending
            && r.pendedTicks == s.pendedTicks + (if s.lock > 0 then 1 else 0)
  {
    if s.lock == 0 {
      DueKeeps(TurnTick(s));
    }
  }

  lemma {:induction false} DueKeeps(s: State)
    requires Sized(s)
    ensures var r := TickDue(s);
            && r.current == s.current && r.prio == s.prio && r.lock == s.lock && r.pending == s.pending
            && r.idle == s.idle
            && |r.ready| == |s.ready| && r.yieldPending == s.yieldPending && r.pendedTicks == s.pendedTicks
    decreases |s.delayed|
  {
    if s.delayed != [] && s.tick >= s.delayed[0].value {
      DueKeeps(WakeHead(s));
    }
  }

  /** vTaskSuspendAll */
  function SuspendAll(s: State): State {
    s.(lock := s.lock + 1)
  }

  /** xTaskResumeAll */
  function ResumeAll(s: State): State
    requires Sized(s) && s.lock > 0 && s.current in s.prio && forall t :: t in s.pending ==> t in s.prio
  {
    if s.lock > 1 then s.(lock := s.lock - 1)
    else
      var s1 := Drain(s).(lock := 0);
      var s2 := if s.pending != [] then ResetUnblock(s1) else s1;
      Replay(s2, s.pendedTicks).(pendedTicks := 0)
  }

  function Ticked(s: State, g: Ledger): Ledger {
    Ledger(g.now + 1, g.due, Placed(s, g, g.now + 1, Wraps(s)))
  }

  function Replayed(s: State, g: Ledger, n: nat): Ledger
    requires Sized(s) && s.current in s.prio
    decreases n
  {
    if n == 0 then g
    else
      IncrementKeeps(s);
      Replayed(IncrementTick(s).(yieldPending := s.yieldPending || TickSwitch(s)), Ticked(s, g), n - 1)
  }

  /** Replaying n ticks takes time forward by n and readies exactly the sleepers due by then. */
  lemma {:induction false} ReplayExact(s: State, g: Ledger, n: nat)
    requires Inv(s, g) && s.lock == 0
    ensures Sized(s) && Inv(Replay(s, n), Replayed(s, g, n)) && Replay(s, n).lock == 0
    ensures var g' := Replayed(s, g, n);
            && g'.now == g.now + n && g'.due == g.due && g'.place.Keys == g.place.Keys
            && forall t :: t in g.place ==>
                 if Asleep(g.place[t]) then Fate(g'.place[t], g, t, n) else g'.place[t] == g.place[t]
    decreases n
  {
    hide Basic, TickDue, TurnTick, Placed, Replay, Replayed;
    InvFacts(s, g);
    if n > 0 {
      TickExact(s, g);
      IncrementKeeps(s);
      var s1, g1 := IncrementTick(s).(yieldPending := s.yieldPending || TickSwitch(s)), Ticked(s, g);
      YieldAny(IncrementTick(s), g1, s.yieldPending || TickSwitch(s));
      ReplayExact(s1, g1, n - 1);
      ReplayStep(s, g, n);
      forall t | t in g.place
        ensures if Asleep(g.place[t]) then Fate(Replayed(s1, g1, n - 1).place[t], g, t, n)
                else Replayed(s1, g1, n - 1).place[t] == g.place[t]
      {
        if Asleep(g.place[t]) {
          SleepersAreDueLater(s, g, t);
        }
        assert g1.place[t] == PlaceAt(s, g, t, g.now + 1, Wraps(s));
      }
    } else {
      ReplayNone(s, g);
    }
  }

  /** A sleeper is ready after n ticks exactly if it was due by then. */
  ghost predicate Fate(p: Place, g: Ledger, t: Task, n: nat) {
    t in g.due && (if g.due[t] <= g.now + n then p.Ready? else Asleep(p))
  }

  lemma {:induction false} ReplayNone(s: State, g: Ledger)
    requires Inv(s, g)
    ensures Sized(s) && Replay(s, 0) == s && Replayed(s, g, 0) == g
    ensures forall t :: t in g.place && Asleep(g.place[t]) ==> Fate(g.place[t], g, t, 0)
  {
    InvFacts(s, g);
    forall t | t in g.place && Asleep(g.place[t])
      ensures Fate(g.place[t], g, t, 0)
    {
      SleepersAreDueLater(s, g, t);
    }
  }

  lemma {:induction false} ReplayStep(s: State, g: Ledger, n: nat)
    requires Sized(s) && s.current in s.prio && n > 0
    ensures var s1 := IncrementTick(s).(yieldPending := s.yieldPending || TickSwitch(s));
            && Sized(s1) && s1.current in s1.prio
            && Replay(s, n) == Replay(s1, n - 1) && Replayed(s, g, n) == Replayed(s1, Ticked(s, g), n - 1)
  {
    IncrementKeeps(s);
  }

  lemma {:induction false} InvFacts(s: State, g: Ledger)
    requires Inv(s, g)
    ensures Sized(s) && s.current in s.prio && (forall t :: t in g.place ==> t in s.prio)
    ensures (forall t :: t in s.pending ==> t in s.prio)
  {
    BasicSized(s, g);
  }

  lemma {:induction false} YieldAny(s: State, g: Ledger, y: bool)
    requires Inv(s, g)
    ensures Inv(s.(yieldPending := y), g)
  {
  }

  /** The ledger after the scheduler has been resumed. */
  function Resumed(s: State, g: Ledger): Ledger
    requires Sized(s) && s.lock > 0 && s.current in s.prio && forall t :: t in s.pending ==> t in s.prio
  {
    if s.lock > 1 then g
    else
      var g1 := g.(place := Drained(g.place, s.pending, s.prio));
      Replayed(if s.pending != [] then ResetUnblock(Drain(s).(lock := 0)) else Drain(s).(lock := 0), g1, s.pendedTicks)
  }

  /**
   * Resuming loses nothing: every pending task is ready, time has moved on by the pended
   * ticks, and exactly the sleepers due by then have been readied.
   */
  lemma {:induction false} ResumeExact(s: State, g: Ledger)
    requires Inv(s, g) && s.lock > 0
    ensures Sized(s) && (forall t :: t in s.pending ==> t in s.prio) && s.current in s.prio
    ensures Inv(ResumeAll(s), Resumed(s, g)) && ResumeAll(s).lock == s.lock - 1 && Resumed(s, g).due == g.due
    ensures s.lock == 1 ==>
              && ResumeAll(s).pendedTicks == 0 && Resumed(s, g).now == g.now + s.pendedTicks
              && Resumed(s, g).place.Keys == g.place.Keys
              && (forall t :: t in s.pending ==> t in g.place && Resumed(s, g).place[t] == Ready(s.prio[t]))
              && (forall t :: t in g.place && t !in s.pending ==>
                    if Asleep(g.place[t]) then Fate(Resumed(s, g).place[t], g, t, s.pendedTicks)
                      else Resumed(s, g).place[t] == g.place[t])
  {
    hide Basic, Drain, Replay, Replayed, Drained;
    InvFacts(s, g);
    if s.lock > 1 {
      LockAny(s, g, s.lock - 1);
    } else {
      DrainInv(s, g);
      var s1, g1 := Drain(s), g.(place := Drained(g.place, s.pending, s.prio));
      LockAny(s1, g1, 0);
      UnblockAny(s1.(lock := 0), g1);
      var s2 := if s.pending != [] then ResetUnblock(s1.(lock := 0)) else s1.(lock := 0);
      ReplayExact(s2, g1, s.pendedTicks);
      PendedAny(Replay(s2, s.pendedTicks), Replayed(s2, g1, s.pendedTicks));
      PendingPlaced(s, g);
    }
  }

  lemma {:induction false} LockAny(s: State, g: Ledger, lock: nat)
    requires Inv(s, g) && (lock == 0 ==> s.pending == [])
    ensures Inv(s.(lock := lock), g)
  {
  }

  lemma {:induction false} UnblockAny(s: State, g: Ledger)
    requires Inv(s, g)
    ensures Inv(ResetUnblock(s), g)
  {
    SleepTimes(s.delayed, g.place, Delayed, g.due, s.overflows);
  }

  lemma {:induction false} PendedAny(s: State, g: Ledger)
    requires Inv(s, g)
    ensures Inv(s.(pendedTicks := 0), g)
  {
  }

  lemma {:induction false} MoreTicks(s: State, g: Ledger)
    requires Inv(s, g)
    ensures Inv(s.(pendedTicks := s.pendedTicks + 1), g)
  {
  }

  lemma {:induction false} NowWaiting(s: State, g: Ledger, t: Task)
    requires Inv(s, g) && t in g.place && !g.place[t].Ready? && t !in s.pending
    ensures Inv(s.(waiting := s.waiting + {t}), g)
  {
  }

  lemma {:induction false} PendingPlaced(s: State, g: Ledger)
    requires Inv(s, g)
    ensures forall t :: t in s.pending ==> t in g.place
  {
  }

  // ------------------------------------------------------------------- selecting

  /** The downward scan of taskSELECT_HIGHEST_PRIORITY_TASK. */
  function TopFrom(ready: seq<ReadyList>, p: nat): (q: nat)
    requires p < |ready|
    ensures q <= p && (forall i :: q < i <= p ==> ready[i].items == [])
    ensures (exists i :: 0 <= i <= p && ready[i].items != []) ==> ready[q].items != []
  {
    if p == 0 || ready[p].items != [] then p else TopFrom(ready, p - 1)
  }

  /** vTaskSwitchContext */
  function SwitchContext(s: State): State
    requires Sized(s) && s.topReady < |s.ready| && (s.lock == 0 ==> AnyReady(s))
  {
    if s.lock > 0 then s.(yieldPending := true)
    else
      var p := TopFrom(s.ready, s.topReady);
      var l := s.ready[p];
      var at := NextPos(l.at, |l.items| + 1);
      s.(yieldPending := false, ready := s.ready[p := l.(at := at)], topReady := p, current := l.items[at - 1])
  }

  /** Some task at or below the recorded top priority is ready. */
  predicate AnyReady(s: State)
    requires s.topReady < |s.ready|
  {
    s.ready[TopFrom(s.ready, s.topReady)].items != []
  }

  lemma {:induction false} IdleIsReady(s: State, g: Ledger)
    requires Basic(s, g)
    ensures Sized(s) && s.topReady < |s.ready| && AnyReady(s)
  {
    BasicSized(s, g);
    var p := g.place[s.idle].p;
    assert s.idle in s.ready[p].items;
  }

  /** Nothing is ready above the list that the scan stops at. */
  lemma {:induction false} TopIsExact(s: State, g: Ledger, t: Task)
    requires ReadyOk(s.ready, s.topReady, s.prio, g.place) && t in g.place && g.place[t].Ready?
    ensures t in s.prio && s.prio[t] <= TopFrom(s.ready, s.topReady)
  {
    assert t in s.ready[s.prio[t]].items;
  }

  lemma {:induction false} ReadyMember(s: State, g: Ledger, p: nat, t: Task)
    requires ReadyOk(s.ready, s.topReady, s.prio, g.place) && p < |s.ready| && t in s.ready[p].items
    ensures t in g.place && g.place[t] == Ready(p) && t in s.prio && s.prio[t] == p
  {
  }

  lemma {:induction false} ScannedReadyOk(s: State, g: Ledger, at: nat)
    requires ReadyOk(s.ready, s.topReady, s.prio, g.place)
    requires at <= |s.ready[TopFrom(s.ready, s.topReady)].items|
    ensures var p := TopFrom(s.ready, s.topReady);
            ReadyOk(s.ready[p := s.ready[p].(at := at)], p, s.prio, g.place)
  {
    hide Holds;
  }

  /** An unsuspended switch picks a ready task, no ready task has a higher priority, and the recorded top is exact. */
  lemma {:induction false} SwitchExact(s: State, g: Ledger)
    requires Inv(s, g)
    ensures Sized(s) && s.topReady < |s.ready| && AnyReady(s) && Inv(SwitchContext(s), g)
    ensures s.lock == 0 ==>
              var r := SwitchContext(s);
              && r.current in g.place && g.place[r.current] == Ready(s.prio[r.current])
              && r.topReady == s.prio[r.current]
              && (forall t :: t in g.place && g.place[t].Ready? ==> s.prio[t] <= s.prio[r.current])
  {
    hide SleepersOk, NoDup, Holds, ReadyOk, Sized;
    IdleIsReady(s, g);
    if s.lock == 0 {
      var r, p := SwitchContext(s), TopFrom(s.ready, s.topReady);
      ReadyMember(s, g, p, r.current);
      ScannedReadyOk(s, g, r.ready[p].at);
      forall t | t in g.place && g.place[t].Ready?
        ensures t in s.prio && s.prio[t] <= p
      {
        TopIsExact(s, g, t);
      }
    }
  }

  // ------------------------------------------------------------- no missed switch

  /** Nobody who is ready outranks the running task, unless a switch is already on its way. */
  ghost predicate Served(s: State)
    requires s.current in s.prio
  {
    s.yieldPending || forall p :: s.prio[s.current] < p < |s.ready| ==> s.ready[p].items == []
  }

  lemma {:induction false} DueServed(s: State)
    requires Sized(s) && s.current in s.prio && Served(s) && !WakesRival(s)
    ensures TickDue(s).current == s.current && TickDue(s).prio == s.prio && Served(TickDue(s))
    decreases |s.delayed|
  {
    if s.delayed != [] && s.tick >= s.delayed[0].value {
      DueServed(WakeHead(s));
    }
  }

  /** A tick that calls for no switch leaves the running task at the top. */
  lemma {:induction false} TickServed(s: State)
    requires Sized(s) && s.current in s.prio && Served(s) && !TickSwitch(s)
    ensures IncrementTick(s).current in IncrementTick(s).prio && Served(IncrementTick(s))
  {
    IncrementKeeps(s);
    if s.lock == 0 && TurnTick(s).tick >= TurnTick(s).nextUnblock {
      DueServed(TurnTick(s));
    }
  }

  lemma {:induction false} EventServed(s: State, t: Task)
    requires Sized(s) && s.current in s.prio && t in s.prio && Served(s)
    ensures RemoveFromEvent(s, t).current in RemoveFromEvent(s, t).prio && Served(RemoveFromEvent(s, t))
  {
  }

  // --------------------------------------------------------- changing a priority

  /**
   * The change of priority in xTaskPriorityInherit, xTaskPriorityDisinherit and
   * vTaskPriorityDisinheritAfterTimeout: a ready task moves to the list of its new priority.
   */
  function Reprioritise(s: State, t: Task, p: nat): (r: State)
    requires Sized(s) && t in s.prio && p < |s.ready|
    ensures Sized(r)
  {
    var s1 := s.(prio := s.prio[t := p]);
    var l := s.ready[s.prio[t]];
    if t in l.items then MakeReady(s1.(ready := s.ready[s.prio[t] := RingRemove(l, t)]), t) else s1
  }

  function Moved(s: State, g: Ledger, t: Task, p: nat): Ledger {
    if t in g.place && g.place[t].Ready? then g.(place := g.place[t := Ready(p)]) else g
  }

  lemma {:induction false} RankOnly(ready: seq<ReadyList>, top: nat, prio: map<Task, nat>, place: map<Task, Place>,
                                    t: Task, p: nat)
    requires ReadyOk(ready, top, prio, place) && t in place && !place[t].Ready? && p < |ready|
    ensures ReadyOk(ready, top, prio[t := p], place)
  {
    hide Holds;
  }

  lemma {:induction false} InReady(s: State, g: Ledger, t: Task)
    requires Basic(s, g) && t in g.place
    ensures Sized(s) && t in s.prio && (t in s.ready[s.prio[t]].items <==> g.place[t].Ready?)
  {
    BasicSized(s, g);
  }

  lemma {:induction false} ReadyShift(s: State, g: Ledger, t: Task, p: nat)
    requires Basic(s, g) && t in g.place && p < |s.ready| && Sized(s) && t in s.prio
    ensures var r := Reprioritise(s, t, p);
            ReadyOk(r.ready, r.topReady, r.prio, Moved(s, g, t, p).place)
  {
    hide ReadyOk, SleepersOk, RingRemove, RingInsert;
    InReady(s, g, t);
    if g.place[t].Ready? {
      var away := g.place[t := Suspended];
      var left := s.ready[s.prio[t] := RingRemove(s.ready[s.prio[t]], t)];
      ReadyLeave(s.ready, s.topReady, s.prio, g.place, t, Suspended);
      RankOnly(left, s.topReady, s.prio, away, t, p);
      ReadyMove(s.(ready := left, prio := s.prio[t := p]), away, t);
      assert away[t := Ready(p)] == g.place[t := Ready(p)];
    } else {
      RankOnly(s.ready, s.topReady, s.prio, g.place, t, p);
    }
  }

  lemma {:induction false} AsleepApart(l: seq<Sleeper>, g: Ledger, where: Place, era: nat, t: Task, p: nat)
    requires SleepersOk(l, g.place, where, g.due, era) && !where.Ready? && t in g.place && g.place[t].Ready?
    ensures SleepersOk(l, g.place[t := Ready(p)], where, g.due, era)
  {
    hide NoDup;
    Stays(Tasks(l), g.place, where, t, Ready(p));
  }

  /** A task whose priority changes stays in the same kind of list, and in the one of its priority if it is ready. */
  lemma {:induction false} ReprioritiseInv(s: State, g: Ledger, t: Task, p: nat)
    requires Inv(s, g) && t in g.place && p < |s.ready|
    ensures Sized(s) && t in s.prio && Inv(Reprioritise(s, t, p), Moved(s, g, t, p))
  {
    hide ReadyOk, SleepersOk, Holds, NoDup, RingRemove, RingInsert;
    InReady(s, g, t);
    ReadyShift(s, g, t, p);
    if g.place[t].Ready? {
      AsleepApart(s.delayed, g, Delayed, s.overflows, t, p);
      AsleepApart(s.overflow, g, Overflow, s.overflows + 1, t, p);
      StaysAway(s.suspended, g.place, Suspended, t, Ready(p));
    }
  }

  lemma {:induction false} RingSizes(l: ReadyList, t: Task)
    requires l.at <= |l.items|
    ensures |RingInsert(l, t).items| == |l.items| + 1
    ensures t in l.items ==> |RingRemove(l, t).items| == |l.items| - 1
  {
  }

  /** Raising or lowering another task leaves no ready task above the running one, unless it is put there itself. */
  lemma {:induction false} RaiseServed(s: State, t: Task, p: nat)
    requires Sized(s) && s.current in s.prio && t in s.prio && p < |s.ready| && t != s.current && Served(s)
    ensures var r := Reprioritise(s, t, p);
            r.current in r.prio &&
            (Served(r) <==> s.yieldPending || t !in s.ready[s.prio[t]].items || p <= s.prio[s.current])
  {
    hide RingInsert, RingRemove;
    var r, l := Reprioritise(s, t, p), s.ready[s.prio[t]];
    if t in l.items {
      RingSizes(l, t);
      var left := s.ready[s.prio[t] := RingRemove(l, t)];
      RingSizes(left[p], t);
      assert r.ready == left[p := RingInsert(left[p], t)];
      assert |r.ready[p].items| > 0;
    }
  }

  /**
   * A running task that falls to a lower priority is still at the top exactly if nothing is
   * ready in between: this is where a switch has to follow.
   */
  lemma {:induction false} LowerServed(s: State, p: nat)
    requires Sized(s) && s.current in s.prio && p <= s.prio[s.current] && Served(s)
    requires s.current in s.ready[s.prio[s.current]].items
    ensures var r, c := Reprioritise(s, s.current, p), s.prio[s.current];
            r.current in r.prio &&
            (Served(r) <==> || s.yieldPending || p == c
                            || (|s.ready[c].items| == 1 && forall q :: p < q < c ==> s.ready[q].items == []))
  {
    hide RingInsert, RingRemove;
    var t, c := s.current, s.prio[s.current];
    var r, l := Reprioritise(s, t, p), s.ready[c];
    RingSizes(l, t);
    var left := s.ready[c := RingRemove(l, t)];
    RingSizes(left[p], t);
    assert r.ready == left[p := RingInsert(left[p], t)];
    assert p < c ==> r.ready[c].items == RingRemove(l, t).items;
    assert forall q :: p < q < c ==> r.ready[q] == s.ready[q];
  }

  /** Task 5 falls from priority 2 to 0 while task 7 is ready at 1: it is no longer the one to run. */
  lemma {:induction false} FallsBelow(s: State)
    requires s.ready == [ReadyList([0], 0), ReadyList([7], 0), ReadyList([5], 0)]
    requires s.prio == map[0 := 0, 7 := 1, 5 := 2]
    requires s.current == 5 && !s.yieldPending && s.delayed == [] && s.overflow == []
    ensures Sized(s) && Served(s)
    ensures var r := Reprioritise(s, 5, 0); r.current in r.prio && !Served(r)
  {
    hide Reprioritise;
    LowerServed(s, 0);
    var q := 1;
    assert 0 < q < 2 && s.ready[q].items != [];
  }

  /** prvAddNewTaskToReadyList, while the scheduler runs. */
  function Introduce(s: State, t: Task, p: nat): State
    requires Sized(s) && p < |s.ready|
  {
    MakeReady(s.(prio := s.prio[t := p]), t)
  }

  lemma {:induction false} Unknown(s: State, g: Ledger, t: Task)
    requires Basic(s, g) && t !in s.prio
    ensures t !in g.place
  {
  }

  lemma {:induction false} NewcomerAway(ready: seq<ReadyList>, top: nat, prio: map<Task, nat>, place: map<Task, Place>,
                                        t: Task, p: nat)
    requires ReadyOk(ready, top, prio, place) && t !in place && p < |ready|
    ensures ReadyOk(ready, top, prio[t := p], place[t := Suspended])
  {
    hide NoDup;
  }

  lemma {:induction false} NewcomerReady(s: State, g: Ledger, t: Task, p: nat)
    requires ReadyOk(s.ready, s.topReady, s.prio, g.place) && Sized(s) && t !in g.place && p < |s.ready|
    ensures ReadyOk(Introduce(s, t, p).ready, Introduce(s, t, p).topReady, s.prio[t := p], g.place[t := Ready(p)])
  {
    hide ReadyOk, RingInsert;
    var away := g.place[t := Suspended];
    NewcomerAway(s.ready, s.topReady, s.prio, g.place, t, p);
    ReadyMove(s.(prio := s.prio[t := p]), away, t);
    assert away[t := Ready(p)] == g.place[t := Ready(p)];
  }

  lemma {:induction false} NewcomerApart(items: seq<Task>, place: map<Task, Place>, where: Place, t: Task, p: nat)
    requires Holds(items, place, where) && t !in place && !where.Ready?
    ensures Holds(items, place[t := Ready(p)], where)
  {
    hide NoDup;
  }

  /** A task that is created while the scheduler runs is ready at its priority, and nothing else moves. */
  lemma {:induction false} IntroduceInv(s: State, g: Ledger, t: Task, p: nat)
    requires Inv(s, g) && t !in s.prio && p < |s.ready|
    ensures Sized(s) && Inv(Introduce(s, t, p), g.(place := g.place[t := Ready(p)]))
  {
    hide ReadyOk, Holds, NoDup, RingInsert;
    BasicSized(s, g);
    Unknown(s, g, t);
    NewcomerReady(s, g, t, p);
    NewcomerApart(Tasks(s.delayed), g.place, Delayed, t, p);
    NewcomerApart(Tasks(s.overflow), g.place, Overflow, t, p);
    NewcomerApart(s.suspended, g.place, Suspended, t, p);
  }
}
