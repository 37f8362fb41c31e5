/**
 * Mutexes with priority inheritance (FreeRTOS/Source/queue.c, xQueueSemaphoreTake and
 * xQueueGenericSend; FreeRTOS/Source/tasks.c, xTaskPriorityInherit and its inverses).
 *
 * Every critical section, and every stretch with the scheduler suspended, is one step.
 * A task that waits for a mutex is on its list until a give wakes it or its time runs
 * out; `woken` holds the tasks that have been woken and have not yet tried again.  A
 * `World` is such a state and the running task: a give switches tasks or does not, as the
 * code decides, and a context switch brings up a task that no woken task outranks, which
 * Scheduler.SwitchExact shows of the scheduler.
 */
module Mutexes {
  import opened KernelList

  /** Tasks and mutexes are numbered. */
  type Task = nat
  type Mutex = nat

  datatype Holder = Nobody | Held(task: Task)

  datatype State = State(
    base: seq<nat>, prio: seq<nat>, held: seq<nat>,
    holder: seq<Holder>, count: seq<nat>, waiters: seq<seq<Task>>, woken: seq<set<Task>>)

  predicate InRange(l: seq<Task>, n: nat) {
    forall i :: 0 <= i < |l| ==> l[i] < n
  }

  /** Every number stands for a task. */
  predicate Sized(s: State) {
    && |s.prio| == |s.base| == |s.held| && |s.count| == |s.holder| == |s.waiters| == |s.woken|
    && (forall m :: 0 <= m < |s.holder| && s.holder[m].Held? ==> s.holder[m].task < |s.base|)
    && (forall m :: 0 <= m < |s.waiters| ==> InRange(s.waiters[m], |s.base|))
    && (forall m, t :: 0 <= m < |s.woken| && t in s.woken[m] ==> t < |s.base|)
  }

  // -------------------------------------------------------------------- the steps

  /** The mutex is free and the running task takes it. */
  function Take(s: State, t: Task, m: Mutex): State
    requires Sized(s) && t < |s.base| && m < |s.holder| && s.count[m] > 0
  {
    s.(count := s.count[m := s.count[m] - 1], holder := s.holder[m := Held(t)], held := s.held[t := s.held[t] + 1],
       woken := s.woken[m := s.woken[m] - {t}])
  }

  /** xTaskPriorityInherit: the holder gets at least the priority of the task about to wait. */
  function Inherit(prio: seq<nat>, h: Holder, t: Task): (r: seq<nat>)
    requires t < |prio| && (h.Held? ==> h.task < |prio|)
    ensures |r| == |prio|
  {
    if h.Held? && prio[h.task] < prio[t] then prio[h.task := prio[t]] else prio
  }

  /** What xTaskPriorityInherit returns: the holder runs, or would run, at an inherited priority. */
  function Inherited(s: State, h: Holder, t: Task): bool
    requires Sized(s) && t < |s.base| && (h.Held? ==> h.task < |s.base|)
  {
    h.Held? && (s.prio[h.task] < s.prio[t] || s.base[h.task] < s.prio[t])
  }

  /** Where a task goes in an event list: behind all tasks of at least its priority. */
  function Place(l: seq<Task>, prio: seq<nat>, t: Task): (k: nat)
    requires t < |prio| && InRange(l, |prio|)
    ensures k <= |l| && (forall i :: 0 <= i < k ==> prio[l[i]] >= prio[t]) && (k < |l| ==> prio[l[k]] < prio[t])
  {
    if l == [] || prio[l[0]] < prio[t] then 0 else 1 + Place(l[1..], prio, t)
  }

  /** The mutex is held and the running task goes to wait for it. */
  function Wait(s: State, t: Task, m: Mutex): State
    requires Sized(s) && t < |s.base| && m < |s.holder|
  {
    var prio := Inherit(s.prio, s.holder[m], t);
    s.(prio := prio, waiters := s.waiters[m := InsertAt(s.waiters[m], Place(s.waiters[m], prio, t), t)],
       woken := s.woken[m := s.woken[m] - {t}])
  }

  /** xTaskPriorityDisinherit: back to the base priority once nothing is held any more. */
  function Disinherit(s: State, t: Task): State
    requires Sized(s) && t < |s.base| && s.held[t] > 0
  {
    var n := s.held[t] - 1;
    s.(held := s.held[t := n], prio := if s.prio[t] != s.base[t] && n == 0 then s.prio[t := s.base[t]] else s.prio)
  }

  /** The holder gives the mutex back; the first waiter, if there is one, is woken. */
  function Give(s: State, t: Task, m: Mutex): State
    requires Sized(s) && t < |s.base| && m < |s.holder| && s.held[t] > 0
  {
    var s1 := Disinherit(s, t).(holder := s.holder[m := Nobody], count := s.count[m := s.count[m] + 1]);
    if s.waiters[m] == [] then s1
    else s1.(waiters := s.waiters[m := s.waiters[m][1..]], woken := s.woken[m := s.woken[m] + {s.waiters[m][0]}])
  }

  /** What xTaskPriorityDisinherit returns. */
  predicate Disinherits(s: State, t: Task)
    requires Sized(s) && t < |s.base|
  {
    s.prio[t] != s.base[t] && s.held[t] == 1
  }

  /**
   * Whether the give switches tasks: for the task it wakes or, if it wakes none, because
   * the giver has lost its priority.
   */
  predicate Yields(s: State, t: Task, m: Mutex)
    requires Sized(s) && t < |s.base| && m < |s.holder| && s.held[t] > 0
  {
    if s.waiters[m] == [] then Disinherits(s, t)
    else s.prio[s.waiters[m][0]] > Give(s, t, m).prio[t]
  }

  /** The tick interrupt takes a task whose time is up off the list. */
  function TimeOut(s: State, t: Task, m: Mutex): State
    requires m < |s.waiters| && t in s.waiters[m]
  {
    s.(waiters := s.waiters[m := RemoveAt(s.waiters[m], PosOf(s.waiters[m], t))])
  }

  /** prvGetDisinheritPriorityAfterTimeout */
  function HighestWaiting(s: State, m: Mutex): nat
    requires Sized(s) && m < |s.waiters|
  {
    if s.waiters[m] == [] then 0 else s.prio[s.waiters[m][0]]
  }

  /** The priority a holder falls back to when a waiter has given up. */
  function Fallback(s: State, m: Mutex, h: Task): nat
    requires Sized(s) && m < |s.waiters| && h < |s.base|
  {
    if s.base[h] < HighestWaiting(s, m) then HighestWaiting(s, m) else s.base[h]
  }

  /** A task whose time is up finds the mutex held and stops trying. */
  function Stop(s: State, t: Task, m: Mutex): State
    requires m < |s.woken|
  {
    s.(woken := s.woken[m := s.woken[m] - {t}])
  }

  /** vTaskPriorityDisinheritAfterTimeout: the holder falls back, if this is the only mutex it has. */
  function FallBack(s: State, m: Mutex): State
    requires Sized(s) && m < |s.holder|
  {
    if s.holder[m] == Nobody then s
    else
      var h := s.holder[m].task;
      if s.prio[h] != Fallback(s, m, h) && s.held[h] == 1 then s.(prio := s.prio[h := Fallback(s, m, h)]) else s
  }

  // ---------------------------------------------------------------- the invariant

  /** How many mutexes t holds. */
  function NumHeld(holder: seq<Holder>, t: Task): nat {
    if holder == [] then 0 else NumHeld(holder[..|holder| - 1], t) + if holder[|holder| - 1] == Held(t) then 1 else 0
  }

  /** A mutex is either free or held, and the counts of held mutexes are right. */
  ghost predicate Counts(holder: seq<Holder>, count: seq<nat>, held: seq<nat>) {
    && |count| == |holder|
    && (forall m :: 0 <= m < |holder| ==> count[m] == if holder[m] == Nobody then 1 else 0)
    && (forall t :: 0 <= t < |held| ==> held[t] == NumHeld(holder, t))
  }

  /** A task runs at its base priority or above; without a mutex, exactly there. */
  ghost predicate Levels(base: seq<nat>, prio: seq<nat>, held: seq<nat>) {
    && |prio| == |base| == |held|
    && forall t :: 0 <= t < |base| ==> prio[t] >= base[t] && (held[t] == 0 ==> prio[t] == base[t])
  }

  ghost predicate Above(p: nat, l: seq<Task>, prio: seq<nat>) {
    forall i :: 0 <= i < |l| ==> l[i] < |prio| && prio[l[i]] <= p
  }

  /** The holder of a mutex has at least the priority of everyone who waits for it. */
  ghost predicate Outranks(holder: seq<Holder>, waiters: seq<seq<Task>>, prio: seq<nat>) {
    && |waiters| == |holder|
    && forall m :: 0 <= m < |holder| && holder[m].Held? ==>
         holder[m].task < |prio| && Above(prio[holder[m].task], waiters[m], prio)
  }

  /** The tasks on a list hold nothing, are there once, and are in order of priority. */
  ghost predicate ListOk(l: seq<Task>, held: seq<nat>, prio: seq<nat>) {
    && |held| == |prio| && InRange(l, |prio|)
    && (forall i :: 0 <= i < |l| ==> held[l[i]] == 0)
    && (forall i, j :: 0 <= i < j < |l| ==> l[i] != l[j] && prio[l[i]] >= prio[l[j]])
  }

  ghost predicate ListsOk(waiters: seq<seq<Task>>, held: seq<nat>, prio: seq<nat>) {
    && (forall m :: 0 <= m < |waiters| ==> ListOk(waiters[m], held, prio))
    && (forall m, n, t :: 0 <= m < |waiters| && 0 <= n < |waiters| && t in waiters[m] && t in waiters[n] ==> m == n)
  }

  /** Task t is on no list. */
  ghost predicate OnNoList(waiters: seq<seq<Task>>, t: Task) {
    forall m :: 0 <= m < |waiters| ==> t !in waiters[m]
  }

  /** A woken task holds nothing and is on no list. */
  ghost predicate WokenOk(woken: seq<set<Task>>, waiters: seq<seq<Task>>, held: seq<nat>) {
    forall m, t :: 0 <= m < |woken| && t in woken[m] ==> t < |held| && held[t] == 0 && OnNoList(waiters, t)
  }

  /** Somebody has been woken who outranks all who still wait. */
  ghost predicate Heir(l: seq<Task>, woken: set<Task>, prio: seq<nat>) {
    exists w :: w in woken && w < |prio| && Above(prio[w], l, prio)
  }

  /** While a free mutex is waited for, it has an heir. */
  ghost predicate Handover(holder: seq<Holder>, waiters: seq<seq<Task>>, woken: seq<set<Task>>, prio: seq<nat>) {
    && |waiters| == |holder| == |woken|
    && forall m :: 0 <= m < |holder| && holder[m] == Nobody && waiters[m] != [] ==> Heir(waiters[m], woken[m], prio)
  }

  /** What priority inheritance is for. */
  ghost predicate Law(s: State) {
    Outranks(s.holder, s.waiters, s.prio)
  }

  ghost predicate Inv(s: State) {
    && Sized(s) && Counts(s.holder, s.count, s.held) && Levels(s.base, s.prio, s.held)
    && Outranks(s.holder, s.waiters, s.prio) && ListsOk(s.waiters, s.held, s.prio)
    && WokenOk(s.woken, s.waiters, s.held) && Handover(s.holder, s.waiters, s.woken, s.prio)
  }

  // ------------------------------------------------------- who can do what, when

  /** Task t leads: it is on no list and no woken task outranks it, as a context switch would have it. */
  ghost predicate Leads(s: State, t: Task) {
    && |s.prio| == |s.base| && t < |s.base| && OnNoList(s.waiters, t)
    && forall m, w :: 0 <= m < |s.woken| && w in s.woken[m] ==> w < |s.prio| && s.prio[w] <= s.prio[t]
  }

  /** If t has been woken, it is dealing with m. */
  ghost predicate About(s: State, t: Task, m: Mutex) {
    forall n :: 0 <= n < |s.woken| && t in s.woken[n] ==> n == m
  }

  lemma {:induction false} NumUpdate(holder: seq<Holder>, m: Mutex, h: Holder, t: Task)
    requires m < |holder|
    ensures NumHeld(holder[m := h], t)
         == NumHeld(holder, t) - (if holder[m] == Held(t) then 1 else 0) + (if h == Held(t) then 1 else 0)
  {
    var n := |holder| - 1;
    if m == n {
      assert holder[m := h][..n] == holder[..n];
    } else {
      assert holder[m := h][..n] == holder[..n][m := h];
      NumUpdate(holder[..n], m, h, t);
    }
  }

  lemma {:induction false} NumPositive(holder: seq<Holder>, m: Mutex)
    requires m < |holder| && holder[m].Held?
    ensures NumHeld(holder, holder[m].task) > 0
  {
    NumUpdate(holder, m, Nobody, holder[m].task);
  }

  // --------------------------------------------------------------------- taking

  lemma {:induction false} TakeCounts(holder: seq<Holder>, count: seq<nat>, held: seq<nat>, t: Task, m: Mutex)
    requires Counts(holder, count, held) && t < |held| && m < |holder| && count[m] > 0
    ensures Counts(holder[m := Held(t)], count[m := count[m] - 1], held[t := held[t] + 1])
  {
    var more := held[t := held[t] + 1];
    forall u | 0 <= u < |more|
      ensures more[u] == NumHeld(holder[m := Held(t)], u)
    {
      NumUpdate(holder, m, Held(t), u);
    }
  }

  /** A task that leads while a mutex is free outranks all who wait for it. */
  lemma {:induction false} HeirOutranks(s: State, t: Task, m: Mutex)
    requires Handover(s.holder, s.waiters, s.woken, s.prio) && Leads(s, t) && m < |s.holder| && s.holder[m] == Nobody
    ensures Above(s.prio[t], s.waiters[m], s.prio)
  {
    if s.waiters[m] != [] {
      var w :| w in s.woken[m] && w < |s.prio| && Above(s.prio[w], s.waiters[m], s.prio);
    }
  }

  /** A task on no list may come to hold something. */
  lemma {:induction false} HeldFree(waiters: seq<seq<Task>>, held: seq<nat>, prio: seq<nat>, t: Task, n: nat)
    requires ListsOk(waiters, held, prio) && t < |held| && OnNoList(waiters, t)
    ensures ListsOk(waiters, held[t := n], prio)
  {
    forall m | 0 <= m < |waiters|
      ensures ListOk(waiters[m], held[t := n], prio)
    {
      var l := waiters[m];
      assert ListOk(l, held, prio) && t !in l;
      assert forall i :: 0 <= i < |l| ==> l[i] in l;
    }
  }

  /** Task t is not waiting, and if it has been woken then for m. */
  ghost predicate CanTry(s: State, t: Task, m: Mutex) {
    t < |s.base| && OnNoList(s.waiters, t) && About(s, t, m)
  }

  lemma {:induction false} TakeInv(s: State, t: Task, m: Mutex)
    requires Inv(s) && CanTry(s, t, m) && m < |s.holder| && s.count[m] > 0 && Above(s.prio[t], s.waiters[m], s.prio)
    ensures Inv(Take(s, t, m))
  {
    hide Above, ListOk, InRange, NumHeld;
    TakeCounts(s.holder, s.count, s.held, t, m);
    HeldFree(s.waiters, s.held, s.prio, t, s.held[t] + 1);
  }

  /** Taking a free mutex keeps the law if and only if the taker outranks those who wait for it. */
  lemma {:induction false} TakeExact(s: State, t: Task, m: Mutex)
    requires Inv(s) && CanTry(s, t, m) && m < |s.holder| && s.count[m] > 0
    ensures Law(Take(s, t, m)) <==> Above(s.prio[t], s.waiters[m], s.prio)
    ensures Law(Take(s, t, m)) ==> Inv(Take(s, t, m))
  {
    hide Above, ListOk, InRange, NumHeld, CanTry;
    CanTryRange(s, t, m);
    if Above(s.prio[t], s.waiters[m], s.prio) {
      TakeInv(s, t, m);
    } else {
      var r := Take(s, t, m);
      assert r.holder[m] == Held(t) && r.waiters == s.waiters && r.prio == s.prio;
    }
  }

  /** The taker holds the mutex and one more than before; nobody's priority or place on a list changes. */
  lemma {:induction false} TakenExact(s: State, t: Task, m: Mutex)
    requires Inv(s) && t < |s.base| && m < |s.holder| && s.count[m] > 0
    ensures s.holder[m] == Nobody
    ensures var r := Take(s, t, m);
            && r == s.(holder := s.holder[m := Held(t)], count := s.count[m := 0], held := r.held, woken := r.woken)
            && |r.held| == |s.held| && |r.woken| == |s.woken|
            && (forall u :: 0 <= u < |s.held| ==> r.held[u] == NumHeld(r.holder, u))
            && (forall n, u :: 0 <= n < |s.woken| ==> (u in r.woken[n] <==> u in s.woken[n] && !(n == m && u == t)))
  {
    hide Above, ListOk, InRange, NumHeld;
    TakeCounts(s.holder, s.count, s.held, t, m);
  }

  /** What a blocking take reports: the holder owes its priority, now or already, to a task of the taker's priority. */
  lemma {:induction false} InheritedExact(s: State, h: Holder, t: Task)
    requires Inv(s) && t < |s.base| && (h.Held? ==> h.task < |s.base|)
    ensures Inherited(s, h, t) <==> h.Held? && s.base[h.task] < s.prio[t]
  {
    if h.Held? {
      LevelOf(s, h.task);
    }
  }

  lemma {:induction false} CanTryRange(s: State, t: Task, m: Mutex)
    requires CanTry(s, t, m)
    ensures t < |s.base|
  {
  }

  // ------------------------------------------------------------- changing priorities

  lemma {:induction false} AboveKept(p: nat, l: seq<Task>, prio: seq<nat>, h: Task, q: nat)
    requires Above(p, l, prio) && h < |prio| && h !in l
    ensures Above(p, l, prio[h := q])
  {
    assert forall i :: 0 <= i < |l| ==> l[i] in l;
  }

  lemma {:induction false} ListKept(l: seq<Task>, held: seq<nat>, prio: seq<nat>, h: Task, q: nat)
    requires ListOk(l, held, prio) && h < |prio| && h !in l
    ensures ListOk(l, held, prio[h := q])
  {
    assert forall i :: 0 <= i < |l| ==> l[i] in l;
  }

  /** A task that holds something is on no list and has not been woken. */
  lemma {:induction false} HolderIsBusy(s: State, h: Task)
    requires Inv(s) && h < |s.base| && s.held[h] > 0
    ensures OnNoList(s.waiters, h) && forall m :: 0 <= m < |s.woken| ==> h !in s.woken[m]
  {
    forall m | 0 <= m < |s.waiters|
      ensures h !in s.waiters[m]
    {
      assert ListOk(s.waiters[m], s.held, s.prio);
    }
  }

  /** The priority of a busy task does not matter for lists and heirs. */
  lemma {:induction false} BusyPriority(s: State, h: Task, q: nat)
    requires Inv(s) && h < |s.base| && s.held[h] > 0
    ensures ListsOk(s.waiters, s.held, s.prio[h := q])
    ensures Handover(s.holder, s.waiters, s.woken, s.prio[h := q])
  {
    hide Above, ListOk;
    HolderIsBusy(s, h);
    forall m | 0 <= m < |s.waiters|
      ensures ListOk(s.waiters[m], s.held, s.prio[h := q])
    {
      ListKept(s.waiters[m], s.held, s.prio, h, q);
    }
    forall m | 0 <= m < |s.holder| && s.holder[m] == Nobody && s.waiters[m] != []
      ensures Heir(s.waiters[m], s.woken[m], s.prio[h := q])
    {
      assert Heir(s.waiters[m], s.woken[m], s.prio);
      var w :| w in s.woken[m] && w < |s.prio| && Above(s.prio[w], s.waiters[m], s.prio);
      AboveKept(s.prio[w], s.waiters[m], s.prio, h, q);
    }
  }

  /** A holder may get a new priority that still covers everyone who waits for it. */
  lemma {:induction false} HolderPriority(s: State, h: Task, q: nat)
    requires Inv(s) && h < |s.base| && s.held[h] > 0 && q >= s.base[h]
    requires forall m :: 0 <= m < |s.holder| && s.holder[m] == Held(h) ==> Above(q, s.waiters[m], s.prio)
    ensures Inv(s.(prio := s.prio[h := q]))
  {
    hide Above, ListOk, Heir, InRange, NumHeld;
    BusyPriority(s, h, q);
    HolderIsBusy(s, h);
    var prio := s.prio[h := q];
    forall m | 0 <= m < |s.holder| && s.holder[m].Held?
      ensures Above(prio[s.holder[m].task], s.waiters[m], prio)
    {
      AboveKept(if s.holder[m].task == h then q else s.prio[s.holder[m].task], s.waiters[m], s.prio, h, q);
    }
  }

  lemma {:induction false} AboveMore(p: nat, q: nat, l: seq<Task>, prio: seq<nat>)
    requires Above(p, l, prio) && p <= q
    ensures Above(q, l, prio)
  {
  }

  // -------------------------------------------------------------------- waiting

  lemma {:induction false} InheritInv(s: State, t: Task, m: Mutex)
    requires Inv(s) && t < |s.base| && m < |s.holder| && s.holder[m].Held?
    ensures Inv(s.(prio := Inherit(s.prio, s.holder[m], t)))
    ensures s.held[s.holder[m].task] > 0
    ensures Inherit(s.prio, s.holder[m], t)[s.holder[m].task] >= s.prio[t]
  {
    var h := s.holder[m].task;
    NumPositive(s.holder, m);
    hide Above, ListOk, Heir, InRange, NumHeld, WokenOk, ListsOk, Handover, Levels;
    if s.prio[h] < s.prio[t] {
      forall n | 0 <= n < |s.holder| && s.holder[n] == Held(h)
        ensures Above(s.prio[t], s.waiters[n], s.prio)
      {
        AboveMore(s.prio[h], s.prio[t], s.waiters[n], s.prio);
      }
      LevelOf(s, h);
      HolderPriority(s, h, s.prio[t]);
    }
  }

  lemma {:induction false} LevelOf(s: State, t: Task)
    requires Inv(s) && t < |s.base|
    ensures s.prio[t] >= s.base[t] && (s.held[t] == 0 ==> s.prio[t] == s.base[t])
  {
  }

  lemma {:induction false} ListInsert(l: seq<Task>, held: seq<nat>, prio: seq<nat>, t: Task)
    requires ListOk(l, held, prio) && t < |prio| && held[t] == 0 && t !in l
    ensures var r := InsertAt(l, Place(l, prio, t), t);
            && ListOk(r, held, prio) && (forall u :: u in r <==> u == t || u in l)
            && (forall p: nat :: Above(p, l, prio) && prio[t] <= p ==> Above(p, r, prio))
  {
    var k := Place(l, prio, t);
    var r := InsertAt(l, k, t);
    forall i | 0 <= i < |r|
      ensures r[i] == From(l, k, t, i) && r[i] < |prio| && held[r[i]] == 0
    {
    }
    forall i, j | 0 <= i < j < |r|
      ensures r[i] != r[j] && prio[r[i]] >= prio[r[j]]
    {
      InsertPair(l, held, prio, t, k, i, j);
    }
    forall u | u in l
      ensures u in r
    {
      var i := PosOf(l, u);
      assert r[if i < k then i else i + 1] == u;
    }
    assert r[k] == t;
    assert forall i :: 0 <= i < |r| ==> r[i] == t || r[i] in l;
    forall p: nat | Above(p, l, prio) && prio[t] <= p
      ensures Above(p, r, prio)
    {
    }
  }

  /** What is at index i after t has been inserted at k. */
  function From(l: seq<Task>, k: nat, t: Task, i: nat): Task
    requires k <= |l| && i <= |l|
  {
    if i < k then l[i] else if i == k then t else l[i - 1]
  }

  lemma {:induction false} InsertPair(l: seq<Task>, held: seq<nat>, prio: seq<nat>, t: Task, k: nat, i: nat, j: nat)
    requires ListOk(l, held, prio) && t < |prio| && t !in l && k == Place(l, prio, t) && i < j <= |l|
    ensures From(l, k, t, i) < |prio| && From(l, k, t, j) < |prio|
    ensures From(l, k, t, i) != From(l, k, t, j) && prio[From(l, k, t, i)] >= prio[From(l, k, t, j)]
  {
    assert k < j - 1 ==> prio[l[k]] >= prio[l[j - 1]];
  }

  /** Going to wait for a held mutex, holding nothing. */
  lemma {:induction false} WaitInv(s: State, t: Task, m: Mutex)
    requires Inv(s) && CanTry(s, t, m) && m < |s.holder| && s.holder[m].Held? && s.held[t] == 0
    ensures Inv(Wait(s, t, m))
  {
    InheritInv(s, t, m);
    var s1 := s.(prio := Inherit(s.prio, s.holder[m], t));
    QueueUp(s1, t, m);
  }

  lemma {:induction false} QueueUp(s: State, t: Task, m: Mutex)
    requires Inv(s) && t < |s.base| && OnNoList(s.waiters, t) && m < |s.holder| && s.held[t] == 0 && About(s, t, m)
    requires s.holder[m].Held? && s.prio[s.holder[m].task] >= s.prio[t]
    ensures var l := InsertAt(s.waiters[m], Place(s.waiters[m], s.prio, t), t);
            Inv(s.(waiters := s.waiters[m := l], woken := s.woken[m := s.woken[m] - {t}]))
  {
    hide Above, ListOk, Place, NumHeld, Heir;
    ListInsert(s.waiters[m], s.held, s.prio, t);
    var l := InsertAt(s.waiters[m], Place(s.waiters[m], s.prio, t), t);
    ListRange(l, s.held, s.prio);
    var waiters, woken := s.waiters[m := l], s.woken[m := s.woken[m] - {t}];
    assert ListsOk(waiters, s.held, s.prio);
    forall n, u | 0 <= n < |woken| && u in woken[n]
      ensures u < |s.held| && s.held[u] == 0 && OnNoList(waiters, u)
    {
      assert u in s.woken[n] && u != t;
    }
  }

  lemma {:induction false} ListRange(l: seq<Task>, held: seq<nat>, prio: seq<nat>)
    requires ListOk(l, held, prio)
    ensures InRange(l, |prio|)
  {
  }

  // --------------------------------------------------------------------- giving

  lemma {:induction false} GiveCounts(holder: seq<Holder>, count: seq<nat>, held: seq<nat>, t: Task, m: Mutex)
    requires Counts(holder, count, held) && t < |held| && m < |holder| && holder[m] == Held(t)
    ensures held[t] > 0 && Counts(holder[m := Nobody], count[m := count[m] + 1], held[t := held[t] - 1])
  {
    NumPositive(holder, m);
    var less := held[t := held[t] - 1];
    forall u | 0 <= u < |less|
      ensures less[u] == NumHeld(holder[m := Nobody], u)
    {
      NumUpdate(holder, m, Nobody, u);
    }
  }

  /** Nothing held means no mutex names the task. */
  lemma {:induction false} NumZero(holder: seq<Holder>, t: Task, n: Mutex)
    requires NumHeld(holder, t) == 0 && n < |holder|
    ensures holder[n] != Held(t)
  {
    if holder[n] == Held(t) {
      NumPositive(holder, n);
    }
  }

  /** After the give, before anybody is woken: the mutex is free. */
  lemma {:induction false} ReleaseParts(s: State, t: Task, m: Mutex)
    requires Inv(s) && t < |s.base| && m < |s.holder| && s.holder[m] == Held(t)
    ensures s.held[t] > 0
    ensures var d := Disinherit(s, t);
            && d.held == s.held[t := s.held[t] - 1] && |d.prio| == |s.prio|
            && Counts(s.holder[m := Nobody], s.count[m := s.count[m] + 1], d.held) && Levels(s.base, d.prio, d.held)
            && Outranks(s.holder[m := Nobody], s.waiters, d.prio) && ListsOk(s.waiters, d.held, d.prio)
            && WokenOk(s.woken, s.waiters, d.held)
            && Handover(s.holder, s.waiters, s.woken, d.prio)
  {
    hide Above, ListOk, Heir, InRange, NumHeld;
    GiveCounts(s.holder, s.count, s.held, t, m);
    HolderIsBusy(s, t);
    BusyPriority(s, t, s.base[t]);
    var d := Disinherit(s, t);
    assert ListsOk(s.waiters, s.held, d.prio);
    HeldFree(s.waiters, s.held, d.prio, t, s.held[t] - 1);
    forall n | 0 <= n < |s.holder| && s.holder[m := Nobody][n].Held?
      ensures Above(d.prio[s.holder[n].task], s.waiters[n], d.prio)
    {
      if s.held[t] == 1 {
        NumZero(s.holder[m := Nobody], t, n);
      }
      AboveKept(s.prio[s.holder[n].task], s.waiters[n], s.prio, t, s.base[t]);
    }
  }

  /** Giving a mutex back. */
  lemma {:induction false} GiveInv(s: State, t: Task, m: Mutex)
    requires Inv(s) && t < |s.base| && m < |s.holder| && s.holder[m] == Held(t)
    ensures s.held[t] > 0 && Inv(Give(s, t, m))
  {
    hide Counts, Levels, NumHeld, InRange, Disinherit;
    ReleaseParts(s, t, m);
    var d, l := Disinherit(s, t), s.waiters[m];
    DisinheritKeeps(s, t);
    if l != [] {
      WakeFirst(s, d.held, d.prio, m);
    }
  }

  /**
   * A give frees the mutex, wakes the first waiter, which nobody on the list outranks, and puts
   * the giver back to its base priority exactly if it holds nothing else; it switches if the
   * woken task then outranks the giver or, with nobody to wake, if the giver's priority changed.
   */
  lemma {:induction false} GiveExact(s: State, t: Task, m: Mutex)
    requires Inv(s) && t < |s.base| && m < |s.holder| && s.holder[m] == Held(t)
    ensures s.held[t] > 0
    ensures var r, l := Give(s, t, m), s.waiters[m];
            && r == s.(prio := r.prio, held := s.held[t := s.held[t] - 1], holder := s.holder[m := Nobody],
                       count := s.count[m := 1], waiters := r.waiters, woken := r.woken)
            && |r.prio| == |s.prio| && |r.waiters| == |s.waiters| && |r.woken| == |s.woken|
            && (forall u :: 0 <= u < |s.prio| && u != t ==> r.prio[u] == s.prio[u])
            && r.prio[t] == (if NumHeld(s.holder, t) == 1 then s.base[t] else s.prio[t])
            && (forall n :: 0 <= n < |s.holder| && n != m ==> r.waiters[n] == s.waiters[n] && r.woken[n] == s.woken[n])
            && (l == [] ==> r.waiters[m] == [] && r.woken[m] == s.woken[m])
            && (l != [] ==>
                  && l == [l[0]] + r.waiters[m] && r.woken[m] == s.woken[m] + {l[0]}
                  && l[0] < |s.prio| && Above(s.prio[l[0]], l, s.prio))
            && (Yields(s, t, m) <==> if l == [] then r.prio[t] != s.prio[t] else r.prio[l[0]] > r.prio[t])
  {
    hide Above, Heir, NumHeld;
    NumPositive(s.holder, m);
    HolderIsBusy(s, t);
    LevelOf(s, t);
    if s.waiters[m] != [] {
      FirstIsHighest(s.waiters[m], s.held, s.prio);
      assert s.waiters[m][0] in s.waiters[m];
    }
  }

  lemma {:induction false} FirstIsHighest(l: seq<Task>, held: seq<nat>, prio: seq<nat>)
    requires ListOk(l, held, prio) && l != []
    ensures l[0] < |prio| && Above(prio[l[0]], l, prio)
  {
  }

  lemma {:induction false} DisinheritKeeps(s: State, t: Task)
    requires Sized(s) && t < |s.base| && s.held[t] > 0
    ensures Disinherit(s, t) == s.(held := Disinherit(s, t).held, prio := Disinherit(s, t).prio)
    ensures |Disinherit(s, t).held| == |Disinherit(s, t).prio| == |s.base|
  {
  }

  /** The first waiter leaves the list and becomes the heir. */
  lemma {:induction false} WakeFirst(s: State, held: seq<nat>, prio: seq<nat>, m: Mutex)
    requires Sized(s) && |held| == |prio| == |s.base| && m < |s.holder| && s.waiters[m] != []
    requires ListsOk(s.waiters, held, prio) && WokenOk(s.woken, s.waiters, held)
    requires Handover(s.holder, s.waiters, s.woken, prio)
    requires Outranks(s.holder[m := Nobody], s.waiters, prio)
    ensures var l := s.waiters[m];
            var waiters, woken := s.waiters[m := l[1..]], s.woken[m := s.woken[m] + {l[0]}];
            && ListsOk(waiters, held, prio) && WokenOk(woken, waiters, held)
            && Handover(s.holder[m := Nobody], waiters, woken, prio)
            && Outranks(s.holder[m := Nobody], waiters, prio)
            && (forall n :: 0 <= n < |waiters| ==> InRange(waiters[n], |s.base|))
            && (forall n, t :: 0 <= n < |woken| && t in woken[n] ==> t < |s.base|)
  {
    hide Above, ListOk;
    var l := s.waiters[m];
    var waiters, woken, holder := s.waiters[m := l[1..]], s.woken[m := s.woken[m] + {l[0]}], s.holder[m := Nobody];
    ListTail(l, held, prio);
    Shorter(s.waiters, s.woken, held, prio, m, l[1..]);
    assert l[0] in l && OnNoList(waiters, l[0]);
    forall n | 0 <= n < |holder| && holder[n] == Nobody && waiters[n] != []
      ensures Heir(waiters[n], woken[n], prio)
    {
      if n == m {
        assert l[0] in woken[m];
      } else {
        assert Heir(s.waiters[n], s.woken[n], prio);
      }
    }
  }

  /** A list gets shorter. */
  lemma {:induction false} Shorter(waiters: seq<seq<Task>>, woken: seq<set<Task>>, held: seq<nat>, prio: seq<nat>,
                                   m: Mutex, r: seq<Task>)
    requires ListsOk(waiters, held, prio) && WokenOk(woken, waiters, held) && m < |waiters|
    requires ListOk(r, held, prio) && forall u :: u in r ==> u in waiters[m]
    ensures ListsOk(waiters[m := r], held, prio) && WokenOk(woken, waiters[m := r], held)
    ensures forall u :: u in waiters[m] && u !in r ==> OnNoList(waiters[m := r], u)
  {
    hide ListOk;
    ShorterWoken(waiters, woken, held, m, r);
  }

  lemma {:induction false} ShorterWoken(waiters: seq<seq<Task>>, woken: seq<set<Task>>, held: seq<nat>, m: Mutex,
                                        r: seq<Task>)
    requires WokenOk(woken, waiters, held) && m < |waiters| && forall u :: u in r ==> u in waiters[m]
    ensures WokenOk(woken, waiters[m := r], held)
  {
    var w := waiters[m := r];
    forall n, u | 0 <= n < |woken| && u in woken[n]
      ensures u < |held| && held[u] == 0 && OnNoList(w, u)
    {
      assert u < |held| && held[u] == 0 && OnNoList(waiters, u);
      forall k | 0 <= k < |w|
        ensures u !in w[k]
      {
        assert u !in waiters[k];
      }
    }
    assert WokenOk(woken, w, held);
  }

  lemma {:induction false} ListTail(l: seq<Task>, held: seq<nat>, prio: seq<nat>)
    requires ListOk(l, held, prio) && l != []
    ensures ListOk(l[1..], held, prio) && l[0] < |prio| && held[l[0]] == 0 && l[0] !in l[1..]
    ensures Above(prio[l[0]], l[1..], prio)
    ensures InRange(l[1..], |prio|) && forall u :: u in l[1..] ==> u in l
  {
  }

  // ------------------------------------------------------------------ giving up

  lemma {:induction false} ListRemove(l: seq<Task>, held: seq<nat>, prio: seq<nat>, t: Task)
    requires ListOk(l, held, prio) && t in l
    ensures var r := RemoveAt(l, PosOf(l, t));
            && ListOk(r, held, prio) && (forall u :: u in r ==> u in l) && InRange(r, |prio|)
            && forall p: nat :: Above(p, l, prio) ==> Above(p, r, prio)
  {
    var k := PosOf(l, t);
    var r := RemoveAt(l, k);
    assert forall i :: 0 <= i < |r| ==> r[i] == l[if i < k then i else i + 1];
  }

  /** A waiter whose time is up leaves the list. */
  lemma {:induction false} TimeOutInv(s: State, t: Task, m: Mutex)
    requires Inv(s) && m < |s.waiters| && t in s.waiters[m]
    ensures Inv(TimeOut(s, t, m))
  {
    hide Above, ListOk, NumHeld, InRange, RemoveAt, PosOf;
    ListRemove(s.waiters[m], s.held, s.prio, t);
    Shorter(s.waiters, s.woken, s.held, s.prio, m, RemoveAt(s.waiters[m], PosOf(s.waiters[m], t)));
    var r := TimeOut(s, t, m);
    forall n | 0 <= n < |r.holder| && r.holder[n] == Nobody && r.waiters[n] != []
      ensures Heir(r.waiters[n], r.woken[n], r.prio)
    {
      assert s.waiters[m] != [];
      assert Heir(s.waiters[n], s.woken[n], s.prio);
      var w :| w in s.woken[n] && w < |s.prio| && Above(s.prio[w], s.waiters[n], s.prio);
      assert Above(s.prio[w], r.waiters[n], s.prio);
    }
  }

  /** Only the task whose time is up leaves its list, and the others keep their order. */
  lemma {:induction false} TimeOutExact(s: State, t: Task, m: Mutex)
    requires Inv(s) && m < |s.waiters| && t in s.waiters[m]
    ensures var r := TimeOut(s, t, m);
            && r == s.(waiters := s.waiters[m := r.waiters[m]]) && t !in r.waiters[m]
            && exists k :: 0 <= k < |s.waiters[m]| && s.waiters[m][k] == t
                 && r.waiters[m] == s.waiters[m][..k] + s.waiters[m][k + 1..]
  {
    hide Above, NumHeld, InRange, Heir;
    var l := s.waiters[m];
    var k := PosOf(l, t);
    assert ListOk(l, s.held, s.prio);
    assert l[k] == t && TimeOut(s, t, m).waiters[m] == l[..k] + l[k + 1..];
  }

  /** A task stops trying while somebody holds the mutex. */
  lemma {:induction false} StopInv(s: State, t: Task, m: Mutex)
    requires Inv(s) && m < |s.holder| && s.holder[m].Held?
    ensures Inv(Stop(s, t, m))
  {
    hide Above, ListOk, NumHeld, InRange, Heir;
  }

  /** A task that has stopped trying no longer counts as woken for that mutex; nothing else changes. */
  lemma {:induction false} StopExact(s: State, t: Task, m: Mutex)
    requires m < |s.woken|
    ensures var r := Stop(s, t, m);
            && r == s.(woken := r.woken) && |r.woken| == |s.woken|
            && forall n, u :: 0 <= n < |s.woken| ==> (u in r.woken[n] <==> u in s.woken[n] && !(n == m && u == t))
  {
  }

  /** The holder falls back to what its own base and the remaining waiters call for. */
  lemma {:induction false} FallBackInv(s: State, m: Mutex)
    requires Inv(s) && m < |s.holder|
    ensures Inv(FallBack(s, m))
  {
    if s.holder[m].Held? {
      var h := s.holder[m].task;
      NumPositive(s.holder, m);
      if s.held[h] == 1 {
        forall n | 0 <= n < |s.holder| && s.holder[n] == Held(h)
          ensures Above(Fallback(s, m, h), s.waiters[n], s.prio)
        {
          OnlyOne(s.holder, h, m, n);
          HeadIsHighest(s, m, h);
        }
        HolderPriority(s, h, Fallback(s, m, h));
      }
    }
  }

  /**
   * A holder of one mutex falls back to the highest of its base priority and the priorities of
   * those who still wait; a holder of several, and every other task, keeps its priority.
   */
  lemma {:induction false} FallBackExact(s: State, m: Mutex)
    requires Inv(s) && m < |s.holder|
    ensures var r := FallBack(s, m);
            && r == s.(prio := r.prio) && |r.prio| == |s.prio|
            && (forall t :: 0 <= t < |s.prio| && (s.holder[m] != Held(t) || s.held[t] != 1) ==> r.prio[t] == s.prio[t])
            && (s.holder[m].Held? && s.held[s.holder[m].task] == 1 ==>
                  var h := s.holder[m].task;
                  && r.prio[h] >= r.base[h] && Above(r.prio[h], r.waiters[m], r.prio)
                  && (r.prio[h] == r.base[h] || WaitsAt(r.waiters[m], r.prio, r.prio[h])))
  {
    hide NumHeld, Heir;
    if s.holder[m].Held? {
      var h := s.holder[m].task;
      NumPositive(s.holder, m);
      HolderIsBusy(s, h);
      HeadIsHighest(s, m, h);
      AboveKept(Fallback(s, m, h), s.waiters[m], s.prio, h, Fallback(s, m, h));
      assert s.waiters[m] != [] ==> s.waiters[m][0] in s.waiters[m];
    }
  }

  /** Somebody on the list has priority p. */
  ghost predicate WaitsAt(l: seq<Task>, prio: seq<nat>, p: nat) {
    exists k :: 0 <= k < |l| && l[k] < |prio| && prio[l[k]] == p
  }

  lemma {:induction false} OnlyOne(holder: seq<Holder>, t: Task, m: Mutex, n: Mutex)
    requires NumHeld(holder, t) == 1 && m < |holder| && n < |holder| && holder[m] == Held(t) && holder[n] == Held(t)
    ensures m == n
  {
    NumUpdate(holder, m, Nobody, t);
    NumZero(holder[m := Nobody], t, n);
  }

  lemma {:induction false} HeadIsHighest(s: State, m: Mutex, h: Task)
    requires Inv(s) && m < |s.holder| && h < |s.base|
    ensures Above(Fallback(s, m, h), s.waiters[m], s.prio)
  {
    assert ListOk(s.waiters[m], s.held, s.prio);
  }

  // --------------------------------------------------------------- the missing switch

  /**
   * The give wakes a task that does not outrank the giver's base priority, so it does not
   * switch, although the giver falls to that base and another woken task outranks it.
   */
  ghost predicate Slips(s: State, t: Task, m: Mutex)
    requires Sized(s) && t < |s.base| && m < |s.holder|
  {
    && s.waiters[m] != [] && Disinherits(s, t) && s.prio[s.waiters[m][0]] <= s.base[t]
    && exists n, w :: 0 <= n < |s.woken| && w in s.woken[n] && s.prio[w] > s.base[t]
  }

  lemma {:induction false} GiveShape(s: State, t: Task, m: Mutex)
    requires Inv(s) && t < |s.base| && m < |s.holder| && s.holder[m] == Held(t)
    ensures s.held[t] > 0
    ensures var r := Give(s, t, m);
            && r.base == s.base && r.prio == (if Disinherits(s, t) then s.prio[t := s.base[t]] else s.prio)
            && OnNoList(r.waiters, t) && |r.woken| == |s.woken|
            && (s.waiters[m] == [] ==> r.woken == s.woken)
            && (s.waiters[m] != [] ==>
                  && s.waiters[m][0] < |s.prio| && s.waiters[m][0] != t && t !in s.woken[m]
                  && r.woken == s.woken[m := s.woken[m] + {s.waiters[m][0]}])
    ensures forall n :: 0 <= n < |s.woken| ==> t !in s.woken[n]
  {
    hide Above, ListOk, Heir, NumHeld;
    NumPositive(s.holder, m);
    HolderIsBusy(s, t);
    assert s.waiters[m] != [] ==> s.waiters[m][0] in s.waiters[m];
  }

  /** A giver that leads and is not switched away still leads, if and only if the give does not slip. */
  lemma {:induction false} SlipExact(s: State, t: Task, m: Mutex)
    requires Inv(s) && t < |s.base| && m < |s.holder| && s.holder[m] == Held(t) && Leads(s, t)
    ensures s.held[t] > 0
    ensures !Yields(s, t, m) ==> (Leads(Give(s, t, m), t) <==> !Slips(s, t, m))
  {
    hide Inv, Give, OnNoList;
    InvSized(s);
    GiveShape(s, t, m);
    var r := Give(s, t, m);
    if !Yields(s, t, m) {
      if Slips(s, t, m) {
        var n, w :| 0 <= n < |s.woken| && w in s.woken[n] && s.prio[w] > s.base[t];
        assert w in r.woken[n] && w != t && r.prio[w] > r.prio[t];
      } else {
        forall n, w | 0 <= n < |r.woken| && w in r.woken[n]
          ensures w < |r.prio| && r.prio[w] <= r.prio[t]
        {
          if w in s.woken[n] {
            assert s.prio[w] <= s.prio[t];
          }
        }
      }
    }
  }

  // ------------------------------------------------------------------ whole runs

  /** The state and the running task. */
  datatype World = World(s: State, run: Task)

  datatype Step =
    | TakeStep(m: Mutex) | WaitStep(m: Mutex, next: Task) | GiveStep(m: Mutex, next: Task)
    | TimeOutStep(m: Mutex, t: Task) | StopStep(m: Mutex) | FallBackStep(m: Mutex) | SwitchStep(m: Mutex, next: Task)

  /** The steps that can happen: nobody waits for a mutex while holding one, or gives up one that it holds. */
  ghost predicate Enabled(w: World, st: Step)
    requires Sized(w.s)
  {
    && w.run < |w.s.base| && st.m < |w.s.holder|
    && match st
       case TakeStep(m) => About(w.s, w.run, m) && w.s.count[m] > 0
       case WaitStep(m, _) => About(w.s, w.run, m) && w.s.count[m] == 0 && w.s.held[w.run] == 0
       case GiveStep(m, _) => w.s.holder[m] == Held(w.run)
       case TimeOutStep(m, t) => t in w.s.waiters[m]
       case StopStep(m) => w.s.count[m] == 0
       case FallBackStep(m) => w.s.holder[m] != Held(w.run)
       case SwitchStep(_, _) => true
  }

  /** What a step does, and who runs after it: a context switch brings up a task that leads. */
  ghost predicate Follows(w: World, st: Step, r: World) {
    && Sized(w.s) && Enabled(w, st)
    && match st
       case TakeStep(m) => r == World(Take(w.s, w.run, m), w.run)
       case WaitStep(m, next) => r == World(Wait(w.s, w.run, m), next) && Leads(r.s, next)
       case GiveStep(m, next) =>
         && w.s.held[w.run] > 0 && r == World(Give(w.s, w.run, m), next)
         && if Yields(w.s, w.run, m) then Leads(r.s, next) else next == w.run
       case TimeOutStep(m, t) => r == World(TimeOut(w.s, t, m), w.run)
       case StopStep(m) => r == World(Stop(w.s, w.run, m), w.run)
       case FallBackStep(m) => r == World(FallBack(w.s, m), w.run)
       case SwitchStep(_, next) => r == World(w.s, next) && Leads(w.s, next)
  }

  /** The running task takes a free mutex that nobody above it waits for. */
  ghost predicate Covered(w: World, st: Step) {
    st.TakeStep? ==> w.run < |w.s.prio| && st.m < |w.s.waiters| && Above(w.s.prio[w.run], w.s.waiters[st.m], w.s.prio)
  }

  ghost predicate Good(w: World) {
    Inv(w.s) && w.run < |w.s.base| && OnNoList(w.s.waiters, w.run)
  }

  /** As long as no take is made over the heads of waiters, every step keeps every invariant. */
  lemma {:induction false} StepInv(w: World, st: Step, r: World)
    requires Good(w) && Follows(w, st, r) && Covered(w, st)
    ensures Inv(r.s)
  {
    hide Inv, About, OnNoList, Above, Take, Wait, Give, TimeOut, Stop, FallBack, Yields, Leads;
    FreeOrHeld(w.s, st.m);
    InvSized(w.s);
    match st
    case TakeStep(m) => TakeInv(w.s, w.run, m);
    case WaitStep(m, _) => WaitInv(w.s, w.run, m);
    case GiveStep(m, _) => GiveInv(w.s, w.run, m);
    case TimeOutStep(m, t) => TimeOutInv(w.s, t, m);
    case StopStep(m) => StopInv(w.s, w.run, m);
    case FallBackStep(m) => FallBackInv(w.s, m);
    case SwitchStep(_, _) =>
  }

  lemma {:induction false} LeadsRange(s: State, t: Task)
    requires Leads(s, t)
    ensures t < |s.base| && OnNoList(s.waiters, t)
  {
  }

  lemma {:induction false} StepGood(w: World, st: Step, r: World)
    requires Good(w) && Follows(w, st, r) && Covered(w, st)
    ensures Good(r)
  {
    StepInv(w, st, r);
    hide Inv, Above, Take, Leads, Yields, Place, NumHeld, About;
    match st
    case TakeStep(m) => TakeKeeps(w.s, w.run, m);
    case WaitStep(m, next) => LeadsRange(r.s, next);
    case GiveStep(m, next) =>
      if Yields(w.s, w.run, m) {
        LeadsRange(r.s, next);
      } else {
        GiveShape(w.s, w.run, m);
      }
    case TimeOutStep(m, t) => TimeOutOthers(w.s, m, t, w.run);
    case SwitchStep(_, next) => LeadsRange(w.s, next);
    case _ =>
  }

  lemma {:induction false} TakeKeeps(s: State, t: Task, m: Mutex)
    requires Sized(s) && t < |s.base| && m < |s.holder| && s.count[m] > 0
    ensures Take(s, t, m).base == s.base && Take(s, t, m).waiters == s.waiters && Take(s, t, m).prio == s.prio
  {
  }

  lemma {:induction false} TimeOutOthers(s: State, m: Mutex, t: Task, u: Task)
    requires m < |s.waiters| && t in s.waiters[m] && OnNoList(s.waiters, u)
    ensures OnNoList(TimeOut(s, t, m).waiters, u)
  {
    var l := s.waiters[m];
    var r := RemoveAt(l, PosOf(l, t));
    assert forall x :: x in r ==> x in l;
  }

  /** Without a slip the running task goes on leading. */
  lemma {:induction false} LeadsOn(w: World, st: Step, r: World)
    requires Good(w) && Leads(w.s, w.run) && Follows(w, st, r) && !SlipStep(w, st)
    ensures Leads(r.s, r.run)
  {
    hide Inv, Above, Yields, Place, NumHeld, About, OnNoList, Slips, Give;
    match st
    case TimeOutStep(m, t) => TimeOutOthers(w.s, m, t, w.run);
    case GiveStep(m, next) => SlipExact(w.s, w.run, m);
    case FallBackStep(m) => FallBackLeads(w.s, w.run, m);
    case _ =>
  }

  lemma {:induction false} FallBackLeads(s: State, t: Task, m: Mutex)
    requires Inv(s) && Leads(s, t) && m < |s.holder| && s.holder[m] != Held(t)
    ensures Leads(FallBack(s, m), t)
  {
    hide Above, ListOk, Heir, NumHeld, OnNoList;
    if s.holder[m].Held? {
      NumPositive(s.holder, m);
      HolderIsBusy(s, s.holder[m].task);
    }
  }

  lemma {:induction false} FreeOrHeld(s: State, m: Mutex)
    requires Inv(s) && m < |s.holder|
    ensures m < |s.count| && (s.count[m] == 0 <==> s.holder[m].Held?)
  {
  }

  /** Everything free, everybody at the base priority. */
  ghost predicate Initial(s: State) {
    && Sized(s) && s.prio == s.base
    && (forall m :: 0 <= m < |s.holder| ==>
         s.holder[m] == Nobody && s.count[m] == 1 && s.waiters[m] == [] && s.woken[m] == {})
    && (forall t :: 0 <= t < |s.held| ==> s.held[t] == 0)
  }

  lemma {:induction false} NoneHeld(holder: seq<Holder>, t: Task)
    requires forall m :: 0 <= m < |holder| ==> holder[m] == Nobody
    ensures NumHeld(holder, t) == 0
  {
    if holder != [] {
      NoneHeld(holder[..|holder| - 1], t);
    }
  }

  lemma {:induction false} InitialInv(s: State)
    requires Initial(s)
    ensures Inv(s)
  {
    forall t | 0 <= t < |s.held|
      ensures s.held[t] == NumHeld(s.holder, t)
    {
      NoneHeld(s.holder, t);
    }
  }

  ghost predicate Run(worlds: seq<World>, steps: seq<Step>) {
    && |worlds| == |steps| + 1 && Initial(worlds[0].s) && worlds[0].run < |worlds[0].s.base|
    && forall i :: 0 <= i < |steps| ==> Follows(worlds[i], steps[i], worlds[i + 1])
  }

  lemma {:induction false} InitialGood(w: World)
    requires Initial(w.s) && w.run < |w.s.base|
    ensures Good(w) && Leads(w.s, w.run)
  {
    InitialInv(w.s);
  }

  lemma {:induction false} CoveredGood(worlds: seq<World>, steps: seq<Step>, n: nat)
    requires Run(worlds, steps) && n <= |steps| && forall i :: 0 <= i < n ==> Covered(worlds[i], steps[i])
    ensures Good(worlds[n])
  {
    if n == 0 {
      InitialGood(worlds[0]);
    } else {
      hide Good, Follows, Covered;
      CoveredGood(worlds, steps, n - 1);
      StepGood(worlds[n - 1], steps[n - 1], worlds[n]);
    }
  }

  lemma {:induction false} LawCovers(worlds: seq<World>, steps: seq<Step>, n: nat)
    requires Run(worlds, steps) && n <= |steps| && forall i :: 0 <= i <= |steps| ==> Law(worlds[i].s)
    ensures forall i :: 0 <= i < n ==> Covered(worlds[i], steps[i])
  {
    if n > 0 {
      hide Law, Covered, Follows, Good;
      LawCovers(worlds, steps, n - 1);
      CoveredGood(worlds, steps, n - 1);
      LawCovered(worlds[n - 1], steps[n - 1], worlds[n]);
    }
  }

  lemma {:induction false} LawCovered(w: World, st: Step, r: World)
    requires Good(w) && Follows(w, st, r) && Law(r.s)
    ensures Covered(w, st)
  {
    hide Inv, Law, Above, Take, OnNoList, About;
    InvSized(w.s);
    if st.TakeStep? {
      TakeExact(w.s, w.run, st.m);
    }
  }

  lemma {:induction false} GoodLaw(w: World)
    requires Good(w)
    ensures Law(w.s)
  {
  }

  /**
   * The law of priority inheritance, that a holder outranks everyone who waits for its
   * mutexes, holds throughout a run if and only if every take is made by a task that
   * outranks those who wait for that mutex.
   */
  lemma {:induction false} RunExact(worlds: seq<World>, steps: seq<Step>)
    requires Run(worlds, steps)
    ensures (forall i :: 0 <= i <= |steps| ==> Law(worlds[i].s))
       <==> (forall i :: 0 <= i < |steps| ==> Covered(worlds[i], steps[i]))
  {
    hide Law, Covered, Follows, Good, Initial;
    if forall i :: 0 <= i < |steps| ==> Covered(worlds[i], steps[i]) {
      forall i | 0 <= i <= |steps|
        ensures Law(worlds[i].s)
      {
        CoveredGood(worlds, steps, i);
        GoodLaw(worlds[i]);
      }
    }
    if forall i :: 0 <= i <= |steps| ==> Law(worlds[i].s) {
      LawCovers(worlds, steps, |steps|);
    }
  }

  ghost predicate SlipStep(w: World, st: Step) {
    st.GiveStep? && Sized(w.s) && w.run < |w.s.base| && st.m < |w.s.holder| && Slips(w.s, w.run, st.m)
  }

  /** No give of the run slips. */
  ghost predicate NoSlip(worlds: seq<World>, steps: seq<Step>)
    requires Run(worlds, steps)
  {
    forall i :: 0 <= i < |steps| ==> !SlipStep(worlds[i], steps[i])
  }

  /** In a run without a slip the running task always leads. */
  lemma {:induction false} AlwaysLeads(worlds: seq<World>, steps: seq<Step>, n: nat)
    requires Run(worlds, steps) && NoSlip(worlds, steps) && n <= |steps|
    ensures Good(worlds[n]) && Leads(worlds[n].s, worlds[n].run)
    ensures forall i :: 0 <= i < n ==> Covered(worlds[i], steps[i])
  {
    if n == 0 {
      InitialGood(worlds[0]);
    } else {
      AlwaysLeads(worlds, steps, n - 1);
      var w, st, r := worlds[n - 1], steps[n - 1], worlds[n];
      hide Good, Leads, Follows, Covered, SlipStep, Initial;
      assert Follows(w, st, r) && !SlipStep(w, st);
      LeaderCovers(w, st, r);
      StepGood(w, st, r);
      LeadsOn(w, st, r);
    }
  }

  lemma {:induction false} LeaderCovers(w: World, st: Step, r: World)
    requires Good(w) && Leads(w.s, w.run) && Follows(w, st, r)
    ensures Covered(w, st)
  {
    hide Above;
    if st.TakeStep? {
      FreeOrHeld(w.s, st.m);
      HeirOutranks(w.s, w.run, st.m);
    }
  }

  /**
   * In every state of every run without a slip: a holder's priority is at least that of
   * everyone who waits for its mutexes, the counts of held mutexes are right, a mutex is
   * free or held, and a task that holds none runs at its base priority.
   */
  lemma {:induction false} RunSafe(worlds: seq<World>, steps: seq<Step>, i: nat)
    requires Run(worlds, steps) && NoSlip(worlds, steps) && i <= |steps|
    ensures var s := worlds[i].s;
            && Inv(s)
            && (forall m, k :: 0 <= m < |s.holder| && s.holder[m].Held? && 0 <= k < |s.waiters[m]| ==>
                  s.prio[s.holder[m].task] >= s.prio[s.waiters[m][k]])
            && (forall t :: 0 <= t < |s.base| ==> s.held[t] == NumHeld(s.holder, t))
            && (forall m :: 0 <= m < |s.holder| ==> s.count[m] + (if s.holder[m].Held? then 1 else 0) == 1)
            && (forall t :: 0 <= t < |s.base| && NumHeld(s.holder, t) == 0 ==> s.prio[t] == s.base[t])
  {
    AlwaysLeads(worlds, steps, i);
    SafeNow(worlds[i].s);
  }

  lemma {:induction false} SafeNow(s: State)
    requires Inv(s)
    ensures forall m, k :: 0 <= m < |s.holder| && s.holder[m].Held? && 0 <= k < |s.waiters[m]| ==>
              s.prio[s.holder[m].task] >= s.prio[s.waiters[m][k]]
    ensures forall t :: 0 <= t < |s.base| ==> s.held[t] == NumHeld(s.holder, t)
    ensures forall m :: 0 <= m < |s.holder| ==> s.count[m] + (if s.holder[m].Held? then 1 else 0) == 1
    ensures forall t :: 0 <= t < |s.base| && NumHeld(s.holder, t) == 0 ==> s.prio[t] == s.base[t]
  {
    hide ListsOk, WokenOk, Handover;
    forall m, k | 0 <= m < |s.holder| && s.holder[m].Held? && 0 <= k < |s.waiters[m]|
      ensures s.prio[s.holder[m].task] >= s.prio[s.waiters[m][k]]
    {
      assert Above(s.prio[s.holder[m].task], s.waiters[m], s.prio);
    }
  }

  // ------------------------------------------------------- nobody is raised too far

  /** The holder of m, if there is one, has its base priority or that of somebody who waits for m. */
  ghost predicate Borrows(s: State, m: Mutex)
    requires m < |s.holder| && m < |s.waiters|
  {
    s.holder[m].Held? ==>
      var h := s.holder[m].task;
      h < |s.prio| && h < |s.base| && (s.prio[h] == s.base[h] || WaitsAt(s.waiters[m], s.prio, s.prio[h]))
  }

  /** So it is with every mutex, apart from those that a waiter has given up on. */
  ghost predicate Tight(s: State, owed: set<Mutex>) {
    |s.waiters| == |s.holder| && forall m :: 0 <= m < |s.holder| && m !in owed ==> Borrows(s, m)
  }

  /** No task holds two mutexes. */
  ghost predicate OneEach(s: State) {
    forall t :: 0 <= t < |s.held| ==> s.held[t] <= 1
  }

  /** The mutexes that a waiter has given up on, without the holder having fallen back or given since. */
  function Owed(steps: seq<Step>): set<Mutex> {
    if steps == [] then {} else OwedAfter(Owed(steps[..|steps| - 1]), steps[|steps| - 1])
  }

  function OwedAfter(owed: set<Mutex>, st: Step): set<Mutex> {
    match st
    case TimeOutStep(m, _) => owed + {m}
    case FallBackStep(m) => owed - {m}
    case GiveStep(m, _) => owed - {m}
    case _ => owed
  }

  /** Another holder is not affected by a new priority of h. */
  lemma {:induction false} BorrowsStill(s: State, r: State, n: Mutex, h: Task)
    requires Inv(s) && n < |s.holder| && h < |s.base| && s.held[h] > 0 && Borrows(s, n) && s.holder[n] != Held(h)
    requires |r.prio| == |s.prio| && forall u :: 0 <= u < |s.prio| && u != h ==> r.prio[u] == s.prio[u]
    requires n < |r.holder| && n < |r.waiters| && r.holder[n] == s.holder[n] && r.waiters[n] == s.waiters[n]
    requires r.base == s.base
    ensures Borrows(r, n)
  {
    hide Above, ListOk, Heir, NumHeld;
    HolderIsBusy(s, h);
    var l := s.waiters[n];
    if s.holder[n].Held? && s.prio[s.holder[n].task] != s.base[s.holder[n].task] {
      var k :| 0 <= k < |l| && l[k] < |s.prio| && s.prio[l[k]] == s.prio[s.holder[n].task];
      assert l[k] in l;
    }
  }

  /** A task holds no second mutex. */
  lemma {:induction false} HoldsOne(s: State, m: Mutex, n: Mutex)
    requires Inv(s) && OneEach(s) && m < |s.holder| && n < |s.holder| && s.holder[m].Held? && s.holder[n] == s.holder[m]
    ensures m == n && s.held[s.holder[m].task] == 1
  {
    NumPositive(s.holder, m);
    OnlyOne(s.holder, s.holder[m].task, m, n);
  }

  lemma {:induction false} TakeTight(s: State, t: Task, m: Mutex, owed: set<Mutex>)
    requires Inv(s) && t < |s.base| && m < |s.holder| && s.count[m] > 0 && OneEach(Take(s, t, m)) && Tight(s, owed)
    ensures Tight(Take(s, t, m), owed)
  {
    hide ListsOk, WokenOk, Handover, Outranks, Counts, WaitsAt;
    assert Take(s, t, m).held[t] == s.held[t] + 1;
    forall n | 0 <= n < |s.holder| && n !in owed
      ensures Borrows(Take(s, t, m), n)
    {
      assert Borrows(s, n);
    }
  }

  /** The holder is raised exactly to the priority of the new waiter, if that is higher; nobody else is. */
  lemma {:induction false} WaitExact(s: State, t: Task, m: Mutex)
    requires Sized(s) && t < |s.base| && m < |s.holder|
    ensures var r := Wait(s, t, m);
            && r == s.(prio := r.prio, waiters := r.waiters, woken := r.woken)
            && |r.prio| == |s.prio| && |r.waiters| == |s.waiters| && |r.woken| == |s.woken|
            && (forall u :: 0 <= u < |s.prio| && s.holder[m] != Held(u) ==> r.prio[u] == s.prio[u])
            && (s.holder[m].Held? ==>
                  var h := s.holder[m].task;
                  r.prio[h] >= s.prio[h] && r.prio[h] >= s.prio[t] && r.prio[h] in {s.prio[h], s.prio[t]})
            && t in r.waiters[m]
            && (forall u :: u in r.waiters[m] <==> u == t || u in s.waiters[m])
            && (forall n :: 0 <= n < |s.holder| && n != m ==> r.waiters[n] == s.waiters[n])
  {
    var r := Wait(s, t, m);
    var l, k := s.waiters[m], Place(s.waiters[m], Inherit(s.prio, s.holder[m], t), t);
    assert r.waiters[m] == l[..k] + [t] + l[k..] && l == l[..k] + l[k..];
  }

  /** The new waiter goes behind those of its own priority and in front of those below it. */
  lemma {:induction false} WaitOrder(s: State, t: Task, m: Mutex) returns (k: nat)
    requires Inv(s) && t < |s.base| && m < |s.holder| && s.holder[m].Held?
    ensures var r, l := Wait(s, t, m), s.waiters[m];
            && k <= |l| && r.waiters[m] == l[..k] + [t] + l[k..] && InRange(l, |s.prio|)
            && forall i :: 0 <= i < |l| ==> (i < k <==> r.prio[l[i]] >= r.prio[t])
  {
    hide Above, Heir, NumHeld, Handover, WokenOk, Outranks;
    InheritInv(s, t, m);
    var prio, l := Inherit(s.prio, s.holder[m], t), s.waiters[m];
    k := Place(l, prio, t);
    assert ListOk(l, s.held, prio);
  }

  lemma {:induction false} WaitTight(s: State, t: Task, m: Mutex, owed: set<Mutex>)
    requires Inv(s) && OneEach(s) && t < |s.base| && s.held[t] == 0 && m < |s.holder| && s.holder[m].Held?
    requires Tight(s, owed)
    ensures Tight(Wait(s, t, m), owed)
  {
    hide Above, ListOk, Heir, NumHeld, Wait;
    var r, h := Wait(s, t, m), s.holder[m].task;
    WaitExact(s, t, m);
    HoldsOne(s, m, m);
    HolderIsBusy(s, h);
    forall n | 0 <= n < |s.holder| && n !in owed
      ensures Borrows(r, n)
    {
      assert Borrows(s, n);
      if n == m {
        if r.prio[h] != s.prio[h] {
          var k :| 0 <= k < |r.waiters[m]| && r.waiters[m][k] == t;
          assert r.prio[r.waiters[m][k]] == r.prio[h];
        } else if s.prio[h] != s.base[h] {
          var k :| 0 <= k < |s.waiters[m]| && s.waiters[m][k] < |s.prio| && s.prio[s.waiters[m][k]] == s.prio[h];
          var u := s.waiters[m][k];
          assert u in s.waiters[m] && u in r.waiters[m] && u != h;
          var j :| 0 <= j < |r.waiters[m]| && r.waiters[m][j] == u;
          assert r.prio[r.waiters[m][j]] == r.prio[h];
        }
      } else {
        if s.holder[n] == Held(h) {
          HoldsOne(s, m, n);
        }
        BorrowsStill(s, r, n, h);
      }
    }
  }

  lemma {:induction false} GiveTight(s: State, t: Task, m: Mutex, owed: set<Mutex>)
    requires Inv(s) && OneEach(s) && t < |s.base| && m < |s.holder| && s.holder[m] == Held(t) && Tight(s, owed)
    ensures s.held[t] > 0 && Tight(Give(s, t, m), owed - {m})
  {
    hide Above, ListOk, Heir, NumHeld;
    HoldsOne(s, m, m);
    forall n | 0 <= n < |s.holder| && n !in owed - {m}
      ensures Borrows(Give(s, t, m), n)
    {
      if n != m {
        if s.holder[n] == Held(t) {
          HoldsOne(s, m, n);
        }
        BorrowsStill(s, Give(s, t, m), n, t);
      }
    }
  }

  lemma {:induction false} FallBackTight(s: State, m: Mutex, owed: set<Mutex>)
    requires Inv(s) && OneEach(s) && m < |s.holder| && Tight(s, owed)
    ensures Tight(FallBack(s, m), owed - {m})
  {
    hide Above, ListOk, Heir, NumHeld, FallBack;
    var r := FallBack(s, m);
    FallBackExact(s, m);
    forall n | 0 <= n < |s.holder| && n !in owed - {m}
      ensures Borrows(r, n)
    {
      if s.holder[m].Held? {
        HoldsOne(s, m, m);
        if s.holder[n] == s.holder[m] {
          HoldsOne(s, m, n);
        }
        if n != m {
          BorrowsStill(s, r, n, s.holder[m].task);
        }
      } else if n != m {
        assert Borrows(s, n) && r.prio == s.prio;
      }
    }
  }

  lemma {:induction false} StepTight(w: World, st: Step, r: World, owed: set<Mutex>)
    requires Good(w) && Follows(w, st, r) && OneEach(w.s) && OneEach(r.s) && Tight(w.s, owed)
    ensures Tight(r.s, OwedAfter(owed, st))
  {
    hide Inv, Take, Wait, Give, FallBack, OneEach, Leads, Yields, About, OnNoList, Borrows;
    FreeOrHeld(w.s, st.m);
    match st
    case TakeStep(m) => TakeTight(w.s, w.run, m, owed);
    case WaitStep(m, _) => WaitTight(w.s, w.run, m, owed);
    case GiveStep(m, _) => GiveTight(w.s, w.run, m, owed);
    case FallBackStep(m) => FallBackTight(w.s, m, owed);
    case TimeOutStep(m, t) => TimeOutTight(w.s, t, m, owed);
    case StopStep(m) => StopTight(w.s, w.run, m, owed);
    case SwitchStep(_, _) =>
  }

  lemma {:induction false} TimeOutTight(s: State, t: Task, m: Mutex, owed: set<Mutex>)
    requires m < |s.waiters| && t in s.waiters[m] && Tight(s, owed)
    ensures Tight(TimeOut(s, t, m), owed + {m})
  {
    hide WaitsAt, RemoveAt, PosOf;
    forall n | 0 <= n < |s.holder| && n !in owed + {m}
      ensures Borrows(TimeOut(s, t, m), n)
    {
      assert Borrows(s, n);
    }
  }

  lemma {:induction false} StopTight(s: State, t: Task, m: Mutex, owed: set<Mutex>)
    requires m < |s.woken| && Tight(s, owed)
    ensures Tight(Stop(s, t, m), owed)
  {
    hide WaitsAt;
    forall n | 0 <= n < |s.holder| && n !in owed
      ensures Borrows(Stop(s, t, m), n)
    {
      assert Borrows(s, n);
    }
  }

  lemma {:induction false} TightUpTo(worlds: seq<World>, steps: seq<Step>, i: nat)
    requires Run(worlds, steps) && NoSlip(worlds, steps) && i <= |steps|
    requires forall j :: 0 <= j <= i ==> OneEach(worlds[j].s)
    ensures Tight(worlds[i].s, Owed(steps[..i]))
  {
    if i > 0 {
      TightUpTo(worlds, steps, i - 1);
      AlwaysLeads(worlds, steps, i - 1);
      hide Good, Follows, Leads, Tight, OneEach, SlipStep, Initial;
      assert steps[..i][..i - 1] == steps[..i - 1];
      assert Follows(worlds[i - 1], steps[i - 1], worlds[i]);
      StepTight(worlds[i - 1], steps[i - 1], worlds[i], Owed(steps[..i - 1]));
    }
  }

  /**
   * In every run without a slip in which nobody holds two mutexes at a time, a holder's
   * priority is exactly the highest of its base priority and those who wait for its mutex,
   * unless a waiter has given up and nobody has seen to the holder since.
   */
  lemma {:induction false} RunTight(worlds: seq<World>, steps: seq<Step>, i: nat, m: Mutex)
    requires Run(worlds, steps) && NoSlip(worlds, steps) && i <= |steps|
    requires forall j :: 0 <= j <= i ==> OneEach(worlds[j].s)
    requires m < |worlds[i].s.holder| && worlds[i].s.holder[m].Held? && m !in Owed(steps[..i])
    ensures var s := worlds[i].s;
            && Inv(s)
            && var h := s.holder[m].task;
               && s.prio[h] >= s.base[h] && Above(s.prio[h], s.waiters[m], s.prio)
               && (s.prio[h] == s.base[h] || WaitsAt(s.waiters[m], s.prio, s.prio[h]))
  {
    AlwaysLeads(worlds, steps, i);
    TightUpTo(worlds, steps, i);
    assert Borrows(worlds[i].s, m);
    LevelOf(worlds[i].s, worlds[i].s.holder[m].task);
  }

  // ---------------------------------------------------- why the conditions are there

  /**
   * Raising a holder keeps the law if and only if the holder is on no list whose own holder
   * it would then outrank.
   */
  lemma {:induction false} InheritExact(s: State, t: Task, m: Mutex)
    requires Sized(s) && Law(s) && t < |s.base| && m < |s.holder| && s.holder[m].Held?
    ensures var prio, h := Inherit(s.prio, s.holder[m], t), s.holder[m].task;
            Law(s.(prio := prio)) <==>
              forall n :: 0 <= n < |s.holder| && s.holder[n].Held? && h in s.waiters[n] ==>
                prio[s.holder[n].task] >= prio[h]
  {
    var prio, h := Inherit(s.prio, s.holder[m], t), s.holder[m].task;
    if Law(s.(prio := prio)) {
      forall n | 0 <= n < |s.holder| && s.holder[n].Held? && h in s.waiters[n]
        ensures prio[s.holder[n].task] >= prio[h]
      {
        assert Above(prio[s.holder[n].task], s.waiters[n], prio);
      }
    }
    if forall n :: 0 <= n < |s.holder| && s.holder[n].Held? && h in s.waiters[n] ==>
         prio[s.holder[n].task] >= prio[h] {
      forall n | 0 <= n < |s.holder| && s.holder[n].Held?
        ensures Above(prio[s.holder[n].task], s.waiters[n], prio)
      {
        assert Above(s.prio[s.holder[n].task], s.waiters[n], s.prio);
        assert forall i :: 0 <= i < |s.waiters[n]| ==> s.waiters[n][i] in s.waiters[n];
      }
    }
  }

  /** Task 0 waits for mutex 1, held by task 1, while it holds mutex 0; then task 2 waits for mutex 0. */
  lemma {:induction false} NestingBreaks(s: State)
    requires s == State([1, 1, 5], [1, 1, 5], [1, 1, 0], [Held(0), Held(1)], [0, 0], [[], []], [{}, {}])
    ensures Sized(s) && Law(s) && Sized(Wait(s, 0, 1))
    ensures var r := Wait(Wait(s, 0, 1), 2, 0);
            && r.waiters[1] == [0] && r.holder[1] == Held(1) && r.prio[1] < r.prio[0] && !Law(r)
  {
    var s1 := Wait(s, 0, 1);
    assert Inherit(s.prio, s.holder[1], 0) == s.prio && InsertAt(s.waiters[1], 0, 0) == [0];
    assert s1.waiters == [[], [0]];
    assert Inherit(s1.prio, s1.holder[0], 2) == [5, 1, 5];
    LowHolder(Wait(s1, 2, 0), 1, 0);
  }

  lemma {:induction false} LowHolder(s: State, m: Mutex, i: nat)
    requires m < |s.holder| == |s.waiters| && s.holder[m].Held? && s.holder[m].task < |s.prio| && i < |s.waiters[m]|
    requires s.waiters[m][i] < |s.prio|
    ensures Law(s) ==> s.prio[s.holder[m].task] >= s.prio[s.waiters[m][i]]
  {
    if Law(s) {
      assert Above(s.prio[s.holder[m].task], s.waiters[m], s.prio);
    }
  }

  // The states of a run in which a give slips: tasks of base priority 1, 1, 4 and 5, and two mutexes.

  function Four(
    prio: seq<nat>, held: seq<nat>, holder: seq<Holder>, count: seq<nat>, waiters: seq<seq<Task>>,
        woken: seq<set<Task>>): State
  {
    State([1, 1, 4, 5], prio, held, holder, count, waiters, woken)
  }

  function Slipping(i: nat): World {
    var low := [1, 1, 4, 5];
    match i
    case 0 => World(Four(low, [0, 0, 0, 0], [Nobody, Nobody], [1, 1], [[], []], [{}, {}]), 0)
    case 1 => World(Four(low, [1, 0, 0, 0], [Held(0), Nobody], [0, 1], [[], []], [{}, {}]), 0)
    case 2 => World(Four(low, [2, 0, 0, 0], [Held(0), Held(0)], [0, 0], [[], []], [{}, {}]), 0)
    case 3 => World(Four(low, [2, 0, 0, 0], [Held(0), Held(0)], [0, 0], [[], []], [{}, {}]), 1)
    case 4 => World(Four(low, [2, 0, 0, 0], [Held(0), Held(0)], [0, 0], [[], [1]], [{}, {}]), 2)
    case 5 => World(Four([4, 1, 4, 5], [2, 0, 0, 0], [Held(0), Held(0)], [0, 0], [[2], [1]], [{}, {}]), 3)
    case 6 => World(Four([5, 1, 4, 5], [2, 0, 0, 0], [Held(0), Held(0)], [0, 0], [[3, 2], [1]], [{}, {}]), 0)
    case 7 => World(Four([5, 1, 4, 5], [1, 0, 0, 0], [Nobody, Held(0)], [1, 0], [[2], [1]], [{3}, {}]), 0)
    case 8 => World(Four(low, [0, 0, 0, 0], [Nobody, Nobody], [1, 1], [[2], []], [{3}, {1}]), 0)
    case _ => World(Four(low, [1, 0, 0, 0], [Held(0), Nobody], [0, 1], [[2], []], [{3}, {1}]), 0)
  }

  /** Task 0 takes both mutexes, the others queue up, task 0 gives both back and takes the first one again. */
  function SlippingStep(i: nat): Step {
    match i
    case 0 => TakeStep(0)
    case 1 => TakeStep(1)
    case 2 => SwitchStep(0, 1)
    case 3 => WaitStep(1, 2)
    case 4 => WaitStep(0, 3)
    case 5 => WaitStep(0, 0)
    case 6 => GiveStep(0, 0)
    case 7 => GiveStep(1, 0)
    case _ => TakeStep(0)
  }

  lemma {:induction false} SlippingSized(i: nat)
    requires i <= 9
    ensures Sized(Slipping(i).s)
  {
  }

  lemma {:induction false} SlippingTake(i: nat)
    requires i == 0 || i == 1 || i == 8
    ensures Follows(Slipping(i), SlippingStep(i), Slipping(i + 1))
  {
    SlippingSized(i);
    var s, r, m := Slipping(i).s, Slipping(i + 1).s, SlippingStep(i).m;
    assert s.count[m := s.count[m] - 1] == r.count && s.holder[m := Held(0)] == r.holder;
    assert s.held[0 := s.held[0] + 1] == r.held && s.woken[m] - {0} == s.woken[m];
    assert s.woken[m := s.woken[m]] == r.woken;
  }

  lemma {:induction false} SlippingLeads(i: nat)
    requires 3 <= i <= 6
    ensures Leads(Slipping(i).s, Slipping(i).run)
  {
    var w := Slipping(i);
    assert w.s.woken == [{}, {}];
    assert w.run !in w.s.waiters[0] && w.run !in w.s.waiters[1];
  }

  lemma {:induction false} SlippingWait(i: nat)
    requires 3 <= i <= 5
    ensures Follows(Slipping(i), SlippingStep(i), Slipping(i + 1))
  {
    hide Follows, Leads, Sized;
    SlippingSized(i);
    SlippingLeads(i + 1);
    var w, r, m := Slipping(i), Slipping(i + 1), SlippingStep(i).m;
    assert Inherit(w.s.prio, w.s.holder[m], w.run) == r.s.prio;
    assert [w.run] + w.s.waiters[m] == r.s.waiters[m] && w.s.waiters[m := r.s.waiters[m]] == r.s.waiters;
    WaitIs(Slipping(i), SlippingStep(i).m, Slipping(i + 1));
  }

  /** The front of an empty list, or of one of lower priority, is where the task goes. */
  lemma {:induction false} WaitIs(w: World, m: Mutex, r: World)
    requires Sized(w.s) && w.run < |w.s.base| && m < |w.s.holder| && w.s.count[m] == 0 && w.s.held[w.run] == 0
    requires forall n :: 0 <= n < |w.s.woken| ==> w.s.woken[n] == {}
    requires |r.s.prio| == |w.s.base| && (w.s.waiters[m] == [] || r.s.prio[w.s.waiters[m][0]] < r.s.prio[w.run])
    requires r.s
             == w.s.(prio := Inherit(w.s.prio, w.s.holder[m], w.run),
                 waiters := w.s.waiters[m := [w.run] + w.s.waiters[m]])
    requires Leads(r.s, r.run)
    ensures Follows(w, WaitStep(m, r.run), r)
  {
    assert InsertAt(w.s.waiters[m], 0, w.run) == [w.run] + w.s.waiters[m];
    assert w.s.woken[m] - {w.run} == w.s.woken[m] && w.s.woken[m := w.s.woken[m]] == w.s.woken;
  }

  lemma {:induction false} SlippingGive(i: nat)
    requires 6 <= i <= 7
    ensures Follows(Slipping(i), SlippingStep(i), Slipping(i + 1))
  {
    SlippingSized(i);
    var s, r, m := Slipping(i).s, Slipping(i + 1).s, SlippingStep(i).m;
    assert Disinherit(s, 0) == s.(held := r.held, prio := r.prio) by {
      assert s.held[0 := s.held[0] - 1] == r.held;
    }
    hide Disinherit, Sized;
    assert s.holder[m := Nobody] == r.holder && s.count[m := s.count[m] + 1] == r.count;
    assert s.waiters[m][1..] == r.waiters[m] && s.waiters[m := r.waiters[m]] == r.waiters;
    assert s.woken[m] + {s.waiters[m][0]} == r.woken[m] && s.woken[m := r.woken[m]] == r.woken;
  }

  lemma {:induction false} SlippingFollows(i: nat)
    requires i < 9
    ensures Follows(Slipping(i), SlippingStep(i), Slipping(i + 1))
  {
    hide Follows;
    if 3 <= i <= 5 {
      SlippingWait(i);
    } else if 6 <= i <= 7 {
      SlippingGive(i);
    } else if i == 2 {
      SlippingSwitch();
    } else {
      SlippingTake(i);
    }
  }

  lemma {:induction false} SlippingSwitch()
    ensures Follows(Slipping(2), SlippingStep(2), Slipping(3))
  {
    SlippingSized(2);
  }

  /**
   * A run from the start in which nobody waits while holding a mutex and nobody's priority is
   * set by hand, and yet task 0 ends up holding a mutex at priority 1 that a task of
   * priority 4 waits for: its second give slips.
   */
  lemma {:induction false} SlippedRun()
    ensures var worlds, steps := seq(10, i requires 0 <= i => Slipping(i)),
            seq(9, i requires 0 <= i => SlippingStep(i));
            && Run(worlds, steps) && SlipStep(worlds[7], steps[7]) && !Law(worlds[9].s)
            && worlds[9].s.waiters[0] == [2] && worlds[9].s.holder[0] == Held(0)
            && worlds[9].s.prio[0] < worlds[9].s.prio[2]
  {
    hide Follows, Law, SlipStep;
    forall i | 0 <= i < 9
      ensures Follows(Slipping(i), SlippingStep(i), Slipping(i + 1))
    {
      SlippingFollows(i);
    }
    SlipSeen();
    LowHolder(Slipping(9).s, 0, 0);
  }

  lemma {:induction false} SlipSeen()
    ensures SlipStep(Slipping(7), SlippingStep(7))
  {
    SlippingSized(7);
    var s := Slipping(7).s;
    var n, w: Task := 0, 3;
    assert 0 <= n < |s.woken| && w in s.woken[n] && s.prio[w] > s.base[0];
  }
  // ---------------------------------------------------------------- the operations

  class MutexKernel {
    const base: seq<nat>
    var prio: seq<nat>
    var held: seq<nat>
    var holder: seq<Holder>
    var count: seq<nat>
    var waiters: seq<seq<Task>>
    ghost var woken: seq<set<Task>>

    ghost function St(): State
      reads this
    {
      State(base, prio, held, holder, count, waiters, woken)
    }

    constructor (base: seq<nat>, mutexes: nat)
      ensures Initial(St()) && this.base == base && |holder| == mutexes
    {
      this.base, prio, held := base, base, seq(|base|, _ => 0);
      holder, count, waiters, woken := seq(mutexes, _ => Nobody), seq(mutexes, _ => 1), seq(mutexes, _ => []),
          seq(mutexes, _ => {});
    }

    /** xTaskPriorityInherit; the task about to wait is t. */
    method PriorityInherit(h: Holder, t: Task) returns (inherited: bool)
      requires Sized(St()) && t < |base| && (h.Held? ==> h.task < |base|)
      modifies this`prio
      ensures prio == Inherit(old(prio), h, t) && inherited == Inherited(old(St()), h, t)
    {
      inherited := false;
      if h.Held? {
        if prio[h.task] < prio[t] {
          prio := prio[h.task := prio[t]];
          inherited := true;
        } else if base[h.task] < prio[t] {
          inherited := true;
        }
      }
    }

    /** xTaskPriorityDisinherit */
    method PriorityDisinherit(t: Task) returns (changed: bool)
      requires Sized(St()) && t < |base| && held[t] > 0
      modifies this`prio, this`held
      ensures St() == Disinherit(old(St()), t) && changed == Disinherits(old(St()), t)
    {
      changed := false;
      held := held[t := held[t] - 1];
      if prio[t] != base[t] && held[t] == 0 {
        prio := prio[t := base[t]];
        changed := true;
      }
    }

    /** vTaskPriorityDisinheritAfterTimeout, for the holder of m. */
    method DisinheritAfterTimeout(m: Mutex)
      requires Inv(St()) && m < |holder|
      modifies this`prio
      ensures Inv(St()) && St() == FallBack(old(St()), m)
    {
      FallBackInv(St(), m);
      var highest := if waiters[m] == [] then 0 else prio[waiters[m][0]];
      if holder[m].Held? {
        var h := holder[m].task;
        var p := if base[h] < highest then highest else base[h];
        if prio[h] != p && held[h] == 1 {
          prio := prio[h := p];
        }
      }
    }

    /** xQueueSemaphoreTake, the critical section: takes the mutex if it is free. */
    method TryTake(t: Task, m: Mutex) returns (ok: bool)
      requires Inv(St()) && m < |holder| && CanTry(St(), t, m)
      modifies this
      ensures ok == (old(count)[m] > 0) && Sized(St())
      ensures Inv(St()) <==> !ok || Above(old(prio)[t], old(waiters)[m], old(prio))
      ensures St() == if ok then Take(old(St()), t, m) else old(St())
    {
      hide Inv, About, Above, Law, Take;
      InvSized(St());
      ok := count[m] > 0;
      if ok {
        TakeExact(St(), t, m);
        InvLaw(Take(St(), t, m));
        TakeIs(St(), t, m);
        count := count[m := count[m] - 1];
        holder := holder[m := Held(t)];
        held := held[t := held[t] + 1];
        woken := woken[m := woken[m] - {t}];
      }
    }

    /** xQueueSemaphoreTake, with the scheduler suspended: blocks on a mutex that is held. */
    method Block(t: Task, m: Mutex) returns (inherited: bool)
      requires Inv(St()) && m < |holder| && CanTry(St(), t, m) && count[m] == 0 && held[t] == 0
      modifies this
      ensures Inv(St()) && St() == Wait(old(St()), t, m) && inherited == Inherited(old(St()), old(holder)[m], t)
    {
      hide Inv, About, Place;
      ghost var s := St();
      FreeOrHeld(s, m);
      WaitInv(s, t, m);
      InheritInv(s, t, m);
      InvSized(s);
      inherited := PriorityInherit(holder[m], t);
      waiters := waiters[m := InsertAt(waiters[m], Place(waiters[m], prio, t), t)];
      woken := woken[m := woken[m] - {t}];
    }

    /** xQueueGenericSend on a mutex, by its holder. */
    method GiveBack(t: Task, m: Mutex) returns (switch: bool)
      requires Inv(St()) && m < |holder| && holder[m] == Held(t) && t < |base|
      modifies this
      ensures old(held)[t] > 0 && Sized(old(St())) && Inv(St()) && St() == Give(old(St()), t, m)
      ensures switch == Yields(old(St()), t, m)
    {
      hide Inv, Disinherit;
      ghost var s := St();
      GiveInv(s, t, m);
      GiveShape(s, t, m);
      InvSized(s);
      DisinheritKeeps(s, t);
      var changed := PriorityDisinherit(t);
      holder := holder[m := Nobody];
      count := count[m := count[m] + 1];
      if waiters[m] != [] {
        var first := waiters[m][0];
        woken := woken[m := woken[m] + {first}];
        waiters := waiters[m := waiters[m][1..]];
        switch := prio[first] > prio[t];
      } else {
        switch := changed;
      }
    }
  }

  lemma {:induction false} InvLaw(s: State)
    ensures Inv(s) ==> Law(s)
  {
  }

  lemma {:induction false} TakeIs(s: State, t: Task, m: Mutex)
    requires Sized(s) && t < |s.base| && m < |s.holder| && s.count[m] > 0
    ensures Sized(Take(s, t, m))
    ensures Take(s, t, m) == s.(count := s.count[m := s.count[m] - 1], holder := s.holder[m := Held(t)],
                                held := s.held[t := s.held[t] + 1], woken := s.woken[m := s.woken[m] - {t}])
  {
  }

  lemma {:induction false} InvSized(s: State)
    requires Inv(s)
    ensures Sized(s)
  {
  }
}
