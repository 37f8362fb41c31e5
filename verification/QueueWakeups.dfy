/**
 * Blocking on a queue (FreeRTOS/Source/queue.c): tasks and interrupts post and take
 * messages, and while a task is about to block the queue is locked, so that interrupts
 * only count what they have done and the unlock wakes the tasks.
 *
 * Every critical section is one step.  `wokenRx` and `wokenTx` are the tasks that have
 * been taken off an event list by a post or a take and have not yet tried again.
 */
module QueueWakeups {
  import opened KernelList

  type Task = nat

  const UNLOCKED: int := -1
  const MAX_LOCK: int := 127

  /** How far the task that has locked the queue has got. */
  datatype Phase = Free | Locked | SawEmpty | SawFull | TxOpen

  datatype State = State(
    length: nat, messages: nat, receivers: seq<Task>, senders: seq<Task>, txLock: int, rxLock: int,
    wokenRx: set<Task>, wokenTx: set<Task>, phase: Phase)

  // -------------------------------------------------------------------- the steps

  /** xTaskRemoveFromEventList on the list of receivers, if it is not empty. */
  function WakeReceiver(s: State): State {
    if s.receivers == [] then s
    else s.(receivers := s.receivers[1..], wokenRx := s.wokenRx + {s.receivers[0]})
  }

  function WakeSender(s: State): State {
    if s.senders == [] then s
    else s.(senders := s.senders[1..], wokenTx := s.wokenTx + {s.senders[0]})
  }

  /** The message count after a post; an overwrite replaces the message that is there. */
  function Posted(messages: nat, overwrite: bool): nat {
    if overwrite && messages > 0 then messages else messages + 1
  }

  /** The lock counts are 8-bit. */
  function Inc8(lock: int): int {
    if lock == MAX_LOCK then -128 else lock + 1
  }

  /** There is room for a post; an overwrite, which needs a queue of length 1, always has room. */
  predicate HasRoom(s: State, overwrite: bool) {
    s.messages < s.length || overwrite
  }

  /** xQueueGenericSend: task t posts, or finds the queue full. */
  function Send(s: State, t: Task, overwrite: bool): State {
    var s1 := s.(wokenTx := s.wokenTx - {t});
    if HasRoom(s, overwrite) then WakeReceiver(s1.(messages := Posted(s.messages, overwrite))) else s1
  }

  /** xQueueReceive: task t takes a message, or finds the queue empty. */
  function Receive(s: State, t: Task): State {
    var s1 := s.(wokenRx := s.wokenRx - {t});
    if s.messages > 0 then WakeSender(s1.(messages := s.messages - 1)) else s1
  }

  /** xQueuePeek: the message stays, so the next receiver is woken too. */
  function Peek(s: State, t: Task): State {
    var s1 := s.(wokenRx := s.wokenRx - {t});
    if s.messages > 0 then WakeReceiver(s1) else s1
  }

  /** xQueueGenericSendFromISR */
  function SendFromISR(s: State, overwrite: bool): State {
    if !HasRoom(s, overwrite) then s
    else
      var s1 := s.(messages := Posted(s.messages, overwrite));
      if s.txLock == UNLOCKED then WakeReceiver(s1) else s1.(txLock := Inc8(s.txLock))
  }

  /** xQueueReceiveFromISR */
  function ReceiveFromISR(s: State): State {
    if s.messages == 0 then s
    else
      var s1 := s.(messages := s.messages - 1);
      if s.rxLock == UNLOCKED then WakeSender(s1) else s1.(rxLock := Inc8(s.rxLock))
  }

  /** xQueueGenericReset on a queue in use: it is emptied, and one sender is woken. */
  function Reset(s: State): State {
    WakeSender(s.(messages := 0, txLock := UNLOCKED, rxLock := UNLOCKED))
  }

  /** prvLockQueue */
  function Lock(s: State): State {
    s.(rxLock := if s.rxLock == UNLOCKED then 0 else s.rxLock, txLock := if s.txLock == UNLOCKED then 0
        else s.txLock, phase := Locked)
  }

  /** prvIsQueueEmpty and prvIsQueueFull, by the task that has locked the queue. */
  function LookEmpty(s: State): State {
    if s.messages == 0 then s.(phase := SawEmpty) else s
  }

  function LookFull(s: State): State {
    if s.messages == s.length then s.(phase := SawFull) else s
  }

  /** vTaskPlaceOnEventList; k is the place that the task's priority gives it. */
  function PlaceReceiver(s: State, t: Task, k: nat): State
    requires k <= |s.receivers|
  {
    s.(receivers := InsertAt(s.receivers, k, t), phase := Locked)
  }

  function PlaceSender(s: State, t: Task, k: nat): State
    requires k <= |s.senders|
  {
    s.(senders := InsertAt(s.senders, k, t), phase := Locked)
  }

  /** The loops of prvUnlockQueue: one task is woken for each count, as long as there is one. */
  function WakeReceivers(s: State, n: int): State
    decreases if n > 0 then n else 0
  {
    if n <= 0 || s.receivers == [] then s else WakeReceivers(WakeReceiver(s), n - 1)
  }

  function WakeSenders(s: State, n: int): State
    decreases if n > 0 then n else 0
  {
    if n <= 0 || s.senders == [] then s else WakeSenders(WakeSender(s), n - 1)
  }

  function UnlockTx(s: State): State {
    WakeReceivers(s, s.txLock).(txLock := UNLOCKED, phase := TxOpen)
  }

  function UnlockRx(s: State): State {
    WakeSenders(s, s.rxLock).(rxLock := UNLOCKED, phase := Free)
  }

  /** The tick interrupt takes a task whose time is up off its list. */
  function TimeOutReceiver(s: State, t: Task): State
    requires t in s.receivers
  {
    s.(receivers := RemoveAt(s.receivers, PosOf(s.receivers, t)))
  }

  function TimeOutSender(s: State, t: Task): State
    requires t in s.senders
  {
    s.(senders := RemoveAt(s.senders, PosOf(s.senders, t)))
  }

  // ---------------------------------------------------------------- the invariant

  function Pos(lock: int): nat {
    if lock > 0 then lock else 0
  }

  /** Tasks on a list are there once and have not been woken. */
  ghost predicate ListOk(l: seq<Task>, woken: set<Task>) {
    NoDup(l) && forall t :: t in l ==> t !in woken
  }

  /** The lock counts fit the phase. */
  predicate LocksOk(s: State) {
    match s.phase
    case Free => s.txLock == UNLOCKED && s.rxLock == UNLOCKED
    case TxOpen => s.txLock == UNLOCKED && s.rxLock >= 0
    case _ => s.txLock >= 0 && s.rxLock >= 0
  }

  /** Where receivers wait, or are about to, there is a wakeup under way for every message. */
  predicate RxOk(s: State) {
    s.receivers != [] || s.phase == SawEmpty ==> s.messages <= |s.wokenRx| + Pos(s.txLock)
  }

  /** Where senders wait, or are about to, there is a wakeup under way for every free slot. */
  predicate TxOk(s: State) {
    s.senders != [] || s.phase == SawFull ==> s.length - s.messages <= |s.wokenTx| + Pos(s.rxLock)
  }

  ghost predicate Inv(s: State) {
    && s.messages <= s.length && LocksOk(s) && RxOk(s) && TxOk(s)
    && ListOk(s.receivers, s.wokenRx) && ListOk(s.senders, s.wokenTx)
  }

  // ------------------------------------------------------------------ preservation

  lemma {:induction false} AddedOne(a: set<Task>, t: Task)
    requires t !in a
    ensures |a + {t}| == |a| + 1
  {
  }

  lemma {:induction false} LostOne(a: set<Task>, t: Task)
    ensures |a - {t}| == if t in a then |a| - 1 else |a|
  {
    if t in a {
      assert a == (a - {t}) + {t};
    } else {
      assert a - {t} == a;
    }
  }

  lemma {:induction false} TailOk(l: seq<Task>, woken: set<Task>)
    requires ListOk(l, woken) && l != []
    ensures l[0] !in woken && ListOk(l[1..], woken + {l[0]})
  {
    assert l[0] in l;
    forall t | t in l[1..]
      ensures t in l && t != l[0]
    {
    }
  }

  /** Waking one receiver leaves one more wakeup under way, if somebody waits. */
  lemma {:induction false} WokeReceiver(s: State)
    requires ListOk(s.receivers, s.wokenRx)
    ensures var r := WakeReceiver(s);
            && ListOk(r.receivers, r.wokenRx) && |r.wokenRx| == |s.wokenRx| + (if s.receivers == [] then 0 else 1)
            && (s.receivers == [] ==> r.receivers == [])
  {
    if s.receivers != [] {
      TailOk(s.receivers, s.wokenRx);
      AddedOne(s.wokenRx, s.receivers[0]);
    }
  }

  lemma {:induction false} WokeSender(s: State)
    requires ListOk(s.senders, s.wokenTx)
    ensures var r := WakeSender(s);
            && ListOk(r.senders, r.wokenTx) && |r.wokenTx| == |s.wokenTx| + (if s.senders == [] then 0 else 1)
            && (s.senders == [] ==> r.senders == [])
  {
    if s.senders != [] {
      TailOk(s.senders, s.wokenTx);
      AddedOne(s.wokenTx, s.senders[0]);
    }
  }

  lemma {:induction false} SendInv(s: State, t: Task, overwrite: bool)
    requires Inv(s) && s.phase == Free && (overwrite ==> s.length == 1)
    ensures Inv(Send(s, t, overwrite))
  {
    hide ListOk;
    LostOne(s.wokenTx, t);
    FewerWoken(s.senders, s.wokenTx, t);
    WokeReceiver(s.(wokenTx := s.wokenTx - {t}, messages := Posted(s.messages, overwrite)));
  }

  lemma {:induction false} FewerWoken(l: seq<Task>, woken: set<Task>, t: Task)
    requires ListOk(l, woken)
    ensures ListOk(l, woken - {t})
  {
  }

  lemma {:induction false} ReceiveInv(s: State, t: Task)
    requires Inv(s) && s.phase == Free
    ensures Inv(Receive(s, t))
  {
    hide ListOk;
    LostOne(s.wokenRx, t);
    FewerWoken(s.receivers, s.wokenRx, t);
    WokeSender(s.(wokenRx := s.wokenRx - {t}, messages := if s.messages > 0 then s.messages - 1 else 0));
  }

  lemma {:induction false} PeekInv(s: State, t: Task)
    requires Inv(s) && s.phase == Free
    ensures Inv(Peek(s, t))
  {
    hide ListOk;
    LostOne(s.wokenRx, t);
    FewerWoken(s.receivers, s.wokenRx, t);
    WokeReceiver(s.(wokenRx := s.wokenRx - {t}));
  }

  /**
   * A post from an interrupt keeps every invariant, the sign of the lock count included, if
   * and only if the count can take it.
   */
  lemma {:induction false} SendFromISRInv(s: State, overwrite: bool)
    requires Inv(s) && (overwrite ==> s.length == 1)
    ensures Inv(SendFromISR(s, overwrite)) <==> s.txLock != MAX_LOCK || !HasRoom(s, overwrite)
  {
    hide ListOk;
    WokeReceiver(s.(messages := Posted(s.messages, overwrite)));
  }

  lemma {:induction false} ReceiveFromISRInv(s: State)
    requires Inv(s)
    ensures Inv(ReceiveFromISR(s)) <==> s.rxLock != MAX_LOCK || s.messages == 0
  {
    hide ListOk;
    WokeSender(s.(messages := if s.messages > 0 then s.messages - 1 else 0));
  }

  /** A reset keeps every invariant if and only if the one sender it wakes is enough. */
  lemma {:induction false} ResetInv(s: State)
    requires Inv(s) && s.phase == Free
    ensures Inv(Reset(s)) <==> |s.senders| <= 1 || s.length <= |s.wokenTx| + 1
  {
    hide ListOk;
    WokeSender(s.(messages := 0, txLock := UNLOCKED, rxLock := UNLOCKED));
  }

  lemma {:induction false} PlaceOk(l: seq<Task>, woken: set<Task>, t: Task, k: nat)
    requires ListOk(l, woken) && k <= |l| && t !in l && t !in woken
    ensures ListOk(InsertAt(l, k, t), woken)
  {
    var r := InsertAt(l, k, t);
    assert forall i :: 0 <= i < |r| ==> r[i] == if i < k then l[i] else if i == k then t else l[i - 1];
  }

  lemma {:induction false} RemoveOk(l: seq<Task>, woken: set<Task>, k: nat)
    requires ListOk(l, woken) && k < |l|
    ensures ListOk(RemoveAt(l, k), woken)
  {
    var r := RemoveAt(l, k);
    assert forall i :: 0 <= i < |r| ==> r[i] == l[if i < k then i else i + 1];
  }

  /** What a blocking task does between locking and unlocking. */
  lemma {:induction false} LockedInv(s: State, t: Task, k: nat)
    requires Inv(s)
    ensures s.phase == Free ==> Inv(Lock(s))
    ensures s.phase == Locked ==> Inv(LookEmpty(s)) && Inv(LookFull(s))
    ensures s.phase == SawEmpty && k <= |s.receivers| && t !in s.receivers && t !in s.wokenRx ==>
            Inv(PlaceReceiver(s, t, k))
    ensures s.phase == SawFull && k <= |s.senders| && t !in s.senders && t !in s.wokenTx ==> Inv(PlaceSender(s, t, k))
  {
    hide ListOk;
    if k <= |s.receivers| && t !in s.receivers && t !in s.wokenRx {
      PlaceOk(s.receivers, s.wokenRx, t, k);
    }
    if k <= |s.senders| && t !in s.senders && t !in s.wokenTx {
      PlaceOk(s.senders, s.wokenTx, t, k);
    }
  }

  lemma {:induction false} TimeOutInv(s: State, t: Task)
    requires Inv(s)
    ensures t in s.receivers ==> Inv(TimeOutReceiver(s, t))
    ensures t in s.senders ==> Inv(TimeOutSender(s, t))
  {
    hide ListOk, RemoveAt, PosOf;
    if t in s.receivers {
      RemoveOk(s.receivers, s.wokenRx, PosOf(s.receivers, t));
    }
    if t in s.senders {
      RemoveOk(s.senders, s.wokenTx, PosOf(s.senders, t));
    }
  }

  lemma {:induction false} WokeReceivers(s: State, n: int)
    requires ListOk(s.receivers, s.wokenRx)
    ensures var r := WakeReceivers(s, n);
            && ListOk(r.receivers, r.wokenRx) && r == s.(receivers := r.receivers, wokenRx := r.wokenRx)
            && |r.wokenRx| >= |s.wokenRx|
            && (r.receivers != [] ==> s.receivers != [] && |r.wokenRx| == |s.wokenRx| + Pos(n))
    decreases if n > 0 then n else 0
  {
    if n > 0 && s.receivers != [] {
      WokeReceiver(s);
      WokeReceivers(WakeReceiver(s), n - 1);
    }
  }

  lemma {:induction false} WokeSenders(s: State, n: int)
    requires ListOk(s.senders, s.wokenTx)
    ensures var r := WakeSenders(s, n);
            && ListOk(r.senders, r.wokenTx) && r == s.(senders := r.senders, wokenTx := r.wokenTx)
            && |r.wokenTx| >= |s.wokenTx|
            && (r.senders != [] ==> s.senders != [] && |r.wokenTx| == |s.wokenTx| + Pos(n))
    decreases if n > 0 then n else 0
  {
    if n > 0 && s.senders != [] {
      WokeSender(s);
      WokeSenders(WakeSender(s), n - 1);
    }
  }

  /** Unlocking turns the counts into wakeups. */
  lemma {:induction false} UnlockInv(s: State)
    requires Inv(s)
    ensures s.phase == Locked || s.phase == SawEmpty || s.phase == SawFull ==> Inv(UnlockTx(s))
    ensures s.phase == TxOpen ==> Inv(UnlockRx(s))
  {
    hide ListOk;
    WokeReceivers(s, s.txLock);
    WokeSenders(s, s.rxLock);
  }

  /**
   * A post while the queue is locked costs nobody a wakeup, once the queue is unlocked, if and
   * only if the lock count can take it, nobody waits, or enough receivers are woken already.
   */
  lemma {:induction false} PostExact(s: State, overwrite: bool)
    requires Inv(s) && (s.phase == Locked || s.phase == SawEmpty || s.phase == SawFull) && (overwrite ==> s.length == 1)
    ensures Inv(UnlockTx(SendFromISR(s, overwrite))) <==>
              || s.txLock != MAX_LOCK || !HasRoom(s, overwrite) || s.receivers == []
              || Posted(s.messages, overwrite) <= |s.wokenRx|
  {
    hide ListOk, WakeReceivers;
    var r := SendFromISR(s, overwrite);
    if s.txLock != MAX_LOCK || !HasRoom(s, overwrite) {
      SendFromISRInv(s, overwrite);
      UnlockInv(r);
    } else {
      NoneWoken(r, r.txLock);
    }
  }

  lemma {:induction false} NoneWoken(s: State, n: int)
    requires n <= 0
    ensures WakeReceivers(s, n) == s && WakeSenders(s, n) == s
  {
  }

  /** The same for a receive and the senders, while the second half of the unlock is still to come. */
  lemma {:induction false} TakeExact(s: State)
    requires Inv(s) && s.phase == TxOpen
    ensures Inv(UnlockRx(ReceiveFromISR(s))) <==>
              || s.rxLock != MAX_LOCK || s.messages == 0 || s.senders == []
              || s.length - (s.messages - 1) <= |s.wokenTx|
  {
    hide ListOk;
    var r := ReceiveFromISR(s);
    WokeSenders(r, r.rxLock);
  }

  // ------------------------------------------------------------------ whole runs

  datatype Step =
    | SendStep(t: Task, overwrite: bool) | ReceiveStep(t: Task) | PeekStep(t: Task)
    | SendISR(overwrite: bool) | ReceiveISR
    | LockStep | LookEmptyStep | LookFullStep | PlaceReceiverStep(t: Task, k: nat) | PlaceSenderStep(t: Task, k: nat)
    | UnlockTxStep | UnlockRxStep | TimeOutRx(t: Task) | TimeOutTx(t: Task) | ResetStep

  /**
   * While a task has the queue locked only interrupts interleave with it, and the lock
   * counts can take what they do.
   */
  ghost predicate Enabled(s: State, st: Step) {
    match st
    case SendStep(t, overwrite) => s.phase == Free && (overwrite ==> s.length == 1)
    case ReceiveStep(t) => s.phase == Free
    case PeekStep(t) => s.phase == Free
    case SendISR(overwrite) => (s.txLock != MAX_LOCK || !HasRoom(s, overwrite)) && (overwrite ==> s.length == 1)
    case ReceiveISR => s.rxLock != MAX_LOCK || s.messages == 0
    case LockStep => s.phase == Free
    case LookEmptyStep => s.phase == Locked
    case LookFullStep => s.phase == Locked
    case PlaceReceiverStep(t, k) => s.phase == SawEmpty && k <= |s.receivers| && t !in s.receivers && t !in s.wokenRx
    case PlaceSenderStep(t, k) => s.phase == SawFull && k <= |s.senders| && t !in s.senders && t !in s.wokenTx
    case UnlockTxStep => s.phase == Locked || s.phase == SawEmpty || s.phase == SawFull
    case UnlockRxStep => s.phase == TxOpen
    case TimeOutRx(t) => s.phase == Free && t in s.receivers
    case TimeOutTx(t) => s.phase == Free && t in s.senders
    case ResetStep => s.phase == Free && (|s.senders| <= 1 || s.length <= |s.wokenTx| + 1)
  }

  function Next(s: State, st: Step): State
    requires Enabled(s, st)
  {
    match st
    case SendStep(t, overwrite) => Send(s, t, overwrite)
    case ReceiveStep(t) => Receive(s, t)
    case PeekStep(t) => Peek(s, t)
    case SendISR(overwrite) => SendFromISR(s, overwrite)
    case ReceiveISR => ReceiveFromISR(s)
    case LockStep => Lock(s)
    case LookEmptyStep => LookEmpty(s)
    case LookFullStep => LookFull(s)
    case PlaceReceiverStep(t, k) => PlaceReceiver(s, t, k)
    case PlaceSenderStep(t, k) => PlaceSender(s, t, k)
    case UnlockTxStep => UnlockTx(s)
    case UnlockRxStep => UnlockRx(s)
    case TimeOutRx(t) => TimeOutReceiver(s, t)
    case TimeOutTx(t) => TimeOutSender(s, t)
    case ResetStep => Reset(s)
  }

  lemma {:induction false} StepInv(s: State, st: Step)
    requires Inv(s) && Enabled(s, st)
    ensures Inv(Next(s, st))
  {
    hide Inv, Send, Receive, Peek, SendFromISR, ReceiveFromISR, Lock, LookEmpty, LookFull, PlaceReceiver, PlaceSender,
      UnlockTx, UnlockRx,
      TimeOutReceiver, TimeOutSender, Reset;
    match st
    case SendStep(t, overwrite) => SendInv(s, t, overwrite);
    case ReceiveStep(t) => ReceiveInv(s, t);
    case PeekStep(t) => PeekInv(s, t);
    case SendISR(overwrite) => SendFromISRInv(s, overwrite);
    case ReceiveISR => ReceiveFromISRInv(s);
    case LockStep => LockedInv(s, 0, 0);
    case LookEmptyStep => LockedInv(s, 0, 0);
    case LookFullStep => LockedInv(s, 0, 0);
    case PlaceReceiverStep(t, k) => LockedInv(s, t, k);
    case PlaceSenderStep(t, k) => LockedInv(s, t, k);
    case UnlockTxStep => UnlockInv(s);
    case UnlockRxStep => UnlockInv(s);
    case TimeOutRx(t) => TimeOutInv(s, t);
    case TimeOutTx(t) => TimeOutInv(s, t);
    case ResetStep => ResetInv(s);
  }

  /** A queue nobody is using. */
  predicate Initial(s: State) {
    s.messages <= s.length && s.receivers == [] && s.senders == [] && s.phase == Free && s.txLock == UNLOCKED
        && s.rxLock == UNLOCKED
  }

  ghost predicate Run(states: seq<State>, steps: seq<Step>) {
    && |states| == |steps| + 1 && Initial(states[0])
    && forall i :: 0 <= i < |steps| ==> Enabled(states[i], steps[i]) && states[i + 1] == Next(states[i], steps[i])
  }

  lemma {:induction false} RunInv(states: seq<State>, steps: seq<Step>, i: nat)
    requires Run(states, steps) && i <= |steps|
    ensures Inv(states[i])
  {
    if i > 0 {
      RunInv(states, steps, i - 1);
      StepInv(states[i - 1], steps[i - 1]);
    }
  }

  /**
   * No wakeup is lost: in every state of every run in which the queue is not locked, if a
   * receiver waits then every message has a woken receiver that has yet to try for it,
   * and if a sender waits then every free slot has a woken sender.
   */
  lemma {:induction false} NoLostWakeup(states: seq<State>, steps: seq<Step>, i: nat)
    requires Run(states, steps) && i <= |steps| && states[i].phase == Free
    ensures states[i].receivers != [] ==> states[i].messages <= |states[i].wokenRx|
    ensures states[i].senders != [] ==> states[i].length - states[i].messages <= |states[i].wokenTx|
  {
    RunInv(states, steps, i);
  }

  // ------------------------------------------------------------- who is woken, and when

  /** The first n tasks of the list, or all of them, have been woken, in order; the others wait as before. */
  ghost predicate Woke(l: seq<Task>, woken: set<Task>, l': seq<Task>, woken': set<Task>, n: nat) {
    var k := if n <= |l| then n else |l|;
    l' == l[k..] && woken' == woken + (set t | t in l[..k])
  }

  lemma {:induction false} WokeFirst(l: seq<Task>, woken: set<Task>)
    requires l != []
    ensures Woke(l, woken, l[1..], woken + {l[0]}, 1)
  {
    assert l[..1] == [l[0]];
  }

  lemma {:induction false} WokeNone(l: seq<Task>, woken: set<Task>, n: nat)
    ensures Woke(l, woken, l, woken, 0) && (l == [] ==> Woke(l, woken, l, woken, n))
  {
    assert l[0..] == l;
  }

  lemma {:induction false} WakeReceiverExact(s: State)
    ensures var r := WakeReceiver(s);
            && r == s.(receivers := r.receivers, wokenRx := r.wokenRx)
            && Woke(s.receivers, s.wokenRx, r.receivers, r.wokenRx, 1)
  {
    hide Woke;
    if s.receivers == [] {
      WokeNone(s.receivers, s.wokenRx, 1);
    } else {
      WokeFirst(s.receivers, s.wokenRx);
    }
  }

  lemma {:induction false} WakeSenderExact(s: State)
    ensures var r := WakeSender(s);
            && r == s.(senders := r.senders, wokenTx := r.wokenTx)
            && Woke(s.senders, s.wokenTx, r.senders, r.wokenTx, 1)
  {
    hide Woke;
    if s.senders == [] {
      WokeNone(s.senders, s.wokenTx, 1);
    } else {
      WokeFirst(s.senders, s.wokenTx);
    }
  }

  /** A post to a queue that has room wakes the first waiting receiver and nobody else. */
  lemma {:induction false} SendWakes(s: State, t: Task, overwrite: bool)
    ensures var r := Send(s, t, overwrite);
            && r == s.(messages := r.messages, receivers := r.receivers, wokenRx := r.wokenRx,
                 wokenTx := s.wokenTx - {t})
            && Woke(s.receivers, s.wokenRx, r.receivers, r.wokenRx, if HasRoom(s, overwrite) then 1 else 0)
  {
    hide Woke, WakeReceiver;
    WokeNone(s.receivers, s.wokenRx, 0);
    WakeReceiverExact(s.(wokenTx := s.wokenTx - {t}, messages := Posted(s.messages, overwrite)));
  }

  /** A receive that finds a message wakes the first waiting sender and nobody else. */
  lemma {:induction false} ReceiveWakes(s: State, t: Task)
    ensures var r := Receive(s, t);
            && r == s.(messages := r.messages, senders := r.senders, wokenTx := r.wokenTx, wokenRx := s.wokenRx - {t})
            && Woke(s.senders, s.wokenTx, r.senders, r.wokenTx, if s.messages > 0 then 1 else 0)
  {
    hide Woke, WakeSender;
    WokeNone(s.senders, s.wokenTx, 0);
    if s.messages > 0 {
      WakeSenderExact(s.(wokenRx := s.wokenRx - {t}, messages := s.messages - 1));
    }
  }

  /** A peek that finds a message passes the wakeup on to the next receiver. */
  lemma {:induction false} PeekWakes(s: State, t: Task)
    ensures var r := Peek(s, t);
            && r == s.(receivers := r.receivers, wokenRx := r.wokenRx)
            && Woke(s.receivers, s.wokenRx - {t}, r.receivers, r.wokenRx, if s.messages > 0 then 1 else 0)
  {
    hide Woke, WakeReceiver;
    WokeNone(s.receivers, s.wokenRx - {t}, 0);
    WakeReceiverExact(s.(wokenRx := s.wokenRx - {t}));
  }

  /** A reset empties the queue and wakes the first waiting sender. */
  lemma {:induction false} ResetWakes(s: State)
    ensures var r := Reset(s);
            && r == s.(messages := 0, txLock := UNLOCKED, rxLock := UNLOCKED, senders := r.senders,
                 wokenTx := r.wokenTx)
            && Woke(s.senders, s.wokenTx, r.senders, r.wokenTx, 1)
  {
    hide Woke, WakeSender;
    WakeSenderExact(s.(messages := 0, txLock := UNLOCKED, rxLock := UNLOCKED));
  }

  /** From an interrupt the same, unless the queue is locked: then nobody is woken yet, and the lock counts it. */
  lemma {:induction false} PostWakes(s: State, overwrite: bool)
    ensures var r := SendFromISR(s, overwrite);
            && r == s.(messages := r.messages, receivers := r.receivers, wokenRx := r.wokenRx, txLock := r.txLock)
            && if HasRoom(s, overwrite) && s.txLock == UNLOCKED then
                 r.txLock == UNLOCKED && Woke(s.receivers, s.wokenRx, r.receivers, r.wokenRx, 1)
               else
                 && r.receivers == s.receivers && r.wokenRx == s.wokenRx
                 && (s.txLock != MAX_LOCK ==> r.txLock == s.txLock + if HasRoom(s, overwrite) then 1 else 0)
  {
    hide Woke, WakeReceiver;
    WakeReceiverExact(s.(messages := Posted(s.messages, overwrite)));
  }

  lemma {:induction false} TakeWakes(s: State)
    ensures var r := ReceiveFromISR(s);
            && r == s.(messages := r.messages, senders := r.senders, wokenTx := r.wokenTx, rxLock := r.rxLock)
            && if s.messages > 0 && s.rxLock == UNLOCKED then
                 r.rxLock == UNLOCKED && Woke(s.senders, s.wokenTx, r.senders, r.wokenTx, 1)
               else
                 && r.senders == s.senders && r.wokenTx == s.wokenTx
                 && (s.rxLock != MAX_LOCK ==> r.rxLock == s.rxLock + if s.messages > 0 then 1 else 0)
  {
    hide Woke, WakeSender;
    if s.messages > 0 {
      WakeSenderExact(s.(messages := s.messages - 1));
    }
  }

  lemma {:induction false} WokeMore(l: seq<Task>, woken: set<Task>, l': seq<Task>, woken': set<Task>, n: nat)
    requires l != [] && n > 0 && Woke(l[1..], woken + {l[0]}, l', woken', n - 1)
    ensures Woke(l, woken, l', woken', n)
  {
    var k := if n <= |l| then n else |l|;
    assert l[..k] == [l[0]] + l[1..][..k - 1] && l[k..] == l[1..][k - 1..];
  }

  lemma {:induction false} WakeReceiversExact(s: State, n: int)
    ensures var r := WakeReceivers(s, n);
            r == s.(receivers := r.receivers, wokenRx := r.wokenRx)
            && Woke(s.receivers, s.wokenRx, r.receivers, r.wokenRx, Pos(n))
    decreases if n > 0 then n else 0
  {
    hide Woke;
    if n > 0 && s.receivers != [] {
      WakeReceiversExact(WakeReceiver(s), n - 1);
      var r := WakeReceivers(WakeReceiver(s), n - 1);
      WokeMore(s.receivers, s.wokenRx, r.receivers, r.wokenRx, n);
    } else {
      WokeNone(s.receivers, s.wokenRx, Pos(n));
    }
  }

  lemma {:induction false} WakeSendersExact(s: State, n: int)
    ensures var r := WakeSenders(s, n);
            r == s.(senders := r.senders, wokenTx := r.wokenTx)
            && Woke(s.senders, s.wokenTx, r.senders, r.wokenTx, Pos(n))
    decreases if n > 0 then n else 0
  {
    hide Woke;
    if n > 0 && s.senders != [] {
      WakeSendersExact(WakeSender(s), n - 1);
      var r := WakeSenders(WakeSender(s), n - 1);
      WokeMore(s.senders, s.wokenTx, r.senders, r.wokenTx, n);
    } else {
      WokeNone(s.senders, s.wokenTx, Pos(n));
    }
  }

  /** Unlocking wakes as many tasks as were counted, the first on the list first, and nobody else. */
  lemma {:induction false} UnlockExact(s: State)
    ensures var r := UnlockTx(s);
            && r == s.(receivers := r.receivers, wokenRx := r.wokenRx, txLock := UNLOCKED, phase := TxOpen)
            && Woke(s.receivers, s.wokenRx, r.receivers, r.wokenRx, Pos(s.txLock))
    ensures var r := UnlockRx(s);
            && r == s.(senders := r.senders, wokenTx := r.wokenTx, rxLock := UNLOCKED, phase := Free)
            && Woke(s.senders, s.wokenTx, r.senders, r.wokenTx, Pos(s.rxLock))
  {
    hide Woke, WakeReceivers, WakeSenders;
    WakeReceiversExact(s, s.txLock);
    WakeSendersExact(s, s.rxLock);
  }

  /** A task blocks only on an empty or a full queue, and then waits at its place until it is woken. */
  lemma {:induction false} BlocksExact(s: State, t: Task, k: nat)
    ensures s.phase == Locked ==> (LookEmpty(s).phase == SawEmpty <==> s.messages == 0)
    ensures s.phase == Locked ==> (LookFull(s).phase == SawFull <==> s.messages == s.length)
    ensures k <= |s.receivers| ==>
              var r := PlaceReceiver(s, t, k);
              && r == s.(receivers := r.receivers, phase := Locked)
              && |r.receivers| == |s.receivers| + 1 && r.receivers[k] == t && RemoveAt(r.receivers, k) == s.receivers
    ensures k <= |s.senders| ==>
              var r := PlaceSender(s, t, k);
              && r == s.(senders := r.senders, phase := Locked)
              && |r.senders| == |s.senders| + 1 && r.senders[k] == t && RemoveAt(r.senders, k) == s.senders
  {
    if k <= |s.receivers| {
      InsertThenRemove(s.receivers, k, t);
    }
    if k <= |s.senders| {
      InsertThenRemove(s.senders, k, t);
    }
  }

  /** A task whose time is up, and nobody else, leaves its list. */
  lemma {:induction false} TimeOutExact(s: State, t: Task)
    requires Inv(s)
    ensures t in s.receivers ==>
              var r := TimeOutReceiver(s, t);
              && r == s.(receivers := r.receivers) && t !in r.receivers
              && forall k :: 0 <= k < |s.receivers| && s.receivers[k] == t ==>
                   r.receivers == s.receivers[..k] + s.receivers[k + 1..]
    ensures t in s.senders ==>
              var r := TimeOutSender(s, t);
              && r == s.(senders := r.senders) && t !in r.senders
              && forall k :: 0 <= k < |s.senders| && s.senders[k] == t ==>
                   r.senders == s.senders[..k] + s.senders[k + 1..]
  {
    if t in s.receivers {
      OnlyOnce(s.receivers, t);
    }
    if t in s.senders {
      OnlyOnce(s.senders, t);
    }
  }

  lemma {:induction false} OnlyOnce(l: seq<Task>, t: Task)
    requires NoDup(l) && t in l
    ensures forall k :: 0 <= k < |l| && l[k] == t ==> k == PosOf(l, t)
    ensures t !in RemoveAt(l, PosOf(l, t))
  {
  }

  lemma {:induction false} InsertThenRemove(l: seq<Task>, k: nat, t: Task)
    requires k <= |l|
    ensures |InsertAt(l, k, t)| == |l| + 1 && InsertAt(l, k, t)[k] == t && RemoveAt(InsertAt(l, k, t), k) == l
  {
    var r := InsertAt(l, k, t);
    assert r[..k] == l[..k] && r[k + 1..] == l[k..];
  }

  // ----------------------------------------------------------- no message is lost

  /** What a step does to the number of messages: one more, one less, the last one replaced, all gone. */
  function Gain(s: State, st: Step): int {
    match st
    case SendStep(_, _) => if s.messages < s.length then 1 else 0
    case SendISR(_) => if s.messages < s.length then 1 else 0
    case ReceiveStep(_) => if s.messages > 0 then -1 else 0
    case ReceiveISR => if s.messages > 0 then -1 else 0
    case ResetStep => 0 - s.messages
    case _ => 0
  }

  function Gains(states: seq<State>, steps: seq<Step>): int
    requires |states| == |steps| + 1
  {
    if steps == [] then 0
    else Gains(states[..|steps|], steps[..|steps| - 1]) + Gain(states[|steps| - 1], steps[|steps| - 1])
  }

  lemma {:induction false} StepGain(s: State, st: Step)
    requires Inv(s) && Enabled(s, st)
    ensures Next(s, st).messages == s.messages + Gain(s, st)
  {
    hide RxOk, TxOk, ListOk, LocksOk, WakeReceiver, WakeSender, UnlockTx, UnlockRx, Woke, RemoveAt, PosOf;
    match st
    case SendStep(t, overwrite) =>
      WakeReceiverExact(s.(wokenTx := s.wokenTx - {t}, messages := Posted(s.messages, overwrite)));
    case SendISR(overwrite) => WakeReceiverExact(s.(messages := Posted(s.messages, overwrite)));
    case PeekStep(t) => WakeReceiverExact(s.(wokenRx := s.wokenRx - {t}));
    case ReceiveStep(t) => ReceiveWakesSender(s.(wokenRx := s.wokenRx - {t}));
    case ReceiveISR => ReceiveWakesSender(s);
    case ResetStep => ResetWakes(s);
    case UnlockTxStep => UnlockExact(s);
    case UnlockRxStep => UnlockExact(s);
    case _ =>
  }

  lemma {:induction false} ReceiveWakesSender(s: State)
    ensures s.messages > 0 ==> WakeSender(s.(messages := s.messages - 1)).messages == s.messages - 1
  {
  }

  /**
   * Every message that a post put in is in the queue until a receive takes it out, and none is
   * made up: in every run the number of messages is that of posts that found room, less
   * that of receives that found one, from the last reset on.
   */
  lemma {:induction false} Balance(states: seq<State>, steps: seq<Step>)
    requires Run(states, steps)
    ensures states[|steps|].messages == states[0].messages + Gains(states, steps)
  {
    if steps != [] {
      var n := |steps| - 1;
      assert Run(states[..n + 1], steps[..n]);
      Balance(states[..n + 1], steps[..n]);
      RunInv(states, steps, n);
      hide Inv, Enabled, Gain;
      StepGain(states[n], steps[n]);
    }
  }

  /** The limit of 127 is real: one post more and the count turns negative, so the unlock wakes nobody. */
  lemma {:induction false} TooManyPosts(s: State)
    requires s == State(200, 127, [5], [], MAX_LOCK, 0, {}, {}, Locked)
    ensures Inv(s)
    ensures var r := UnlockRx(UnlockTx(SendFromISR(s, false)));
            r.phase == Free && r.receivers == [5] && r.messages == 128 && r.wokenRx == {}
  {
  }

  /** A reset of a full queue of two that two senders wait for leaves a slot that nobody has been woken for. */
  lemma {:induction false} ResetLoses(s: State)
    requires s == State(2, 2, [], [5, 6], UNLOCKED, UNLOCKED, {}, {}, Free)
    ensures Inv(s) && Reset(s).senders == [6] && Reset(s).wokenTx == {5} && Reset(s).messages == 0 && !Inv(Reset(s))
  {
    assert s.senders[1..] == [6];
    ResetInv(s);
  }

  // ---------------------------------------------------------------- the operations

  class Queue {
    const length: nat
    var messages: nat
    var receivers: seq<Task>
    var senders: seq<Task>
    var txLock: int
    var rxLock: int
    ghost var wokenRx: set<Task>
    ghost var wokenTx: set<Task>
    ghost var phase: Phase

    ghost function St(): State
      reads this
    {
      State(length, messages, receivers, senders, txLock, rxLock, wokenRx, wokenTx, phase)
    }

    constructor (length: nat)
      ensures Initial(St()) && this.length == length && messages == 0
    {
      this.length, messages, receivers, senders, txLock, rxLock := length, 0, [], [], UNLOCKED, UNLOCKED;
      wokenRx, wokenTx, phase := {}, {}, Free;
    }

    /** xTaskRemoveFromEventList on the receivers. */
    method RemoveReceiver()
      modifies this`receivers, this`wokenRx
      ensures St() == WakeReceiver(old(St()))
    {
      if receivers != [] {
        wokenRx := wokenRx + {receivers[0]};
        receivers := receivers[1..];
      }
    }

    method RemoveSender()
      modifies this`senders, this`wokenTx
      ensures St() == WakeSender(old(St()))
    {
      if senders != [] {
        wokenTx := wokenTx + {senders[0]};
        senders := senders[1..];
      }
    }

    /** The critical section of xQueueGenericSend. */
    method TrySend(t: Task, overwrite: bool) returns (ok: bool)
      requires Inv(St()) && phase == Free && (overwrite ==> length == 1)
      modifies this
      ensures Inv(St()) && St() == Send(old(St()), t, overwrite) && ok == HasRoom(old(St()), overwrite)
    {
      SendInv(St(), t, overwrite);
      hide Inv;
      wokenTx := wokenTx - {t};
      ok := messages < length || overwrite;
      if ok {
        messages := if overwrite && messages > 0 then messages else messages + 1;
        RemoveReceiver();
      }
    }

    /** The critical section of xQueueReceive. */
    method TryReceive(t: Task) returns (ok: bool)
      requires Inv(St()) && phase == Free
      modifies this
      ensures Inv(St()) && St() == Receive(old(St()), t) && ok == (old(messages) > 0)
    {
      ReceiveInv(St(), t);
      hide Inv;
      wokenRx := wokenRx - {t};
      ok := messages > 0;
      if ok {
        messages := messages - 1;
        RemoveSender();
      }
    }

    /** xQueueGenericSendFromISR */
    method PostFromISR(overwrite: bool) returns (ok: bool)
      requires Inv(St()) && (overwrite ==> length == 1)
      modifies this
      ensures St() == SendFromISR(old(St()), overwrite) && ok == HasRoom(old(St()), overwrite)
      ensures Inv(St()) <==> old(txLock) != MAX_LOCK || !ok
    {
      SendFromISRInv(St(), overwrite);
      hide Inv;
      ok := messages < length || overwrite;
      if ok {
        messages := if overwrite && messages > 0 then messages else messages + 1;
        if txLock == UNLOCKED {
          RemoveReceiver();
        } else {
          txLock := Inc8(txLock);
        }
      }
    }

    /** xQueueReceiveFromISR */
    method TakeFromISR() returns (ok: bool)
      requires Inv(St())
      modifies this
      ensures St() == ReceiveFromISR(old(St())) && ok == (old(messages) > 0)
      ensures Inv(St()) <==> old(rxLock) != MAX_LOCK || !ok
    {
      ReceiveFromISRInv(St());
      hide Inv;
      ok := messages > 0;
      if ok {
        messages := messages - 1;
        if rxLock == UNLOCKED {
          RemoveSender();
        } else {
          rxLock := Inc8(rxLock);
        }
      }
    }

    /** xQueueGenericReset on a queue in use. */
    method Clear()
      requires Inv(St()) && phase == Free
      modifies this
      ensures St() == Reset(old(St())) && (Inv(St()) <==> |old(senders)| <= 1 || length <= |old(wokenTx)| + 1)
    {
      ResetInv(St());
      hide Inv;
      messages, txLock, rxLock := 0, UNLOCKED, UNLOCKED;
      RemoveSender();
    }

    /** The first critical section of prvUnlockQueue. */
    method UnlockTransmit()
      requires Inv(St()) && (phase == Locked || phase == SawEmpty || phase == SawFull)
      modifies this
      ensures Inv(St()) && St() == UnlockTx(old(St()))
    {
      UnlockInv(St());
      hide Inv;
      var n := txLock;
      while n > 0
        invariant WakeReceivers(St(), n) == WakeReceivers(old(St()), old(txLock))
      {
        if receivers == [] {
          break;
        }
        RemoveReceiver();
        n := n - 1;
      }
      txLock, phase := UNLOCKED, TxOpen;
    }

    /** The second critical section of prvUnlockQueue. */
    method UnlockReceive()
      requires Inv(St()) && phase == TxOpen
      modifies this
      ensures Inv(St()) && St() == UnlockRx(old(St()))
    {
      UnlockInv(St());
      hide Inv;
      var n := rxLock;
      while n > 0
        invariant WakeSenders(St(), n) == WakeSenders(old(St()), old(rxLock))
      {
        if senders == [] {
          break;
        }
        RemoveSender();
        n := n - 1;
      }
      rxLock, phase := UNLOCKED, Free;
    }
  }
}
