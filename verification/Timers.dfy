/**
 * Auto-reload software timers (FreeRTOS/Source/timers.c): the daemon keeps a list of
 * timers that expire before the tick count next wraps, a list of those that expire after
 * it, and a queue of start commands.
 *
 * The `Book` records, for proofs only, unbounded time: when the daemon last sampled the
 * tick count, the era its current list belongs to, the era each queued command was issued in, where each timer
 * is, its next instant, and the callbacks made so far.
 */
module Timers {
  import opened KernelList
  import opened Scheduler

  type Timer = nat

  datatype Command = Command(timer: Timer, time: nat)

  datatype Daemon = Daemon(current: seq<Sleeper>, overflow: seq<Sleeper>, commands: seq<Command>, last: nat)

  /** Where a timer is: nowhere, in the current list, in the overflow list, or in a queued command. */
  datatype Spot = Idle | Near | Far | Queued

  datatype Call = Call(timer: Timer, instant: nat, at: nat)

  datatype Book = Book(
    now: nat, era: nat, issued: seq<nat>, place: seq<Spot>, period: seq<nat>, start: seq<nat>, fired: seq<nat>,
        next: seq<nat>, log: seq<Call>)

  // ------------------------------------------------------------ where a timer goes

  datatype Verdict = Now | ToCurrent | ToOverflow

  /**
   * prvInsertTimerInActiveList: has a timer that was started at `command` expired at `now`,
   * and if not, in which list does it go?
   */
  function Judge(command: nat, period: nat, now: nat): Verdict
    requires command < WRAP && now < WRAP && 0 < period < WRAP
  {
    var expiry := Plus(command, period);
    if expiry <= now then
      if Minus(now, command) >= period then Now else ToOverflow
    else if now < command && expiry >= command then Now
    else ToCurrent
  }

  /** The command is less than a wrap old, or looks a whole period old all the same. */
  predicate Timely(age: nat, command: nat, period: nat, now: nat)
    requires command < WRAP && now < WRAP
  {
    age < WRAP || Minus(now, command) >= period
  }

  /**
   * The judgement tells truly whether the timer has expired if and only if the command is
   * timely; and then the list it names is the right one.
   */
  lemma {:induction false} JudgeExact(c: nat, command: nat, period: nat, n: nat, now: nat)
    requires command < WRAP && now < WRAP && 0 < period < WRAP && c * WRAP + command <= n * WRAP + now
    ensures var instant, age := c * WRAP + command + period, (n * WRAP + now) - (c * WRAP + command);
            && ((Judge(command, period, now) == Now <==> instant <= n * WRAP + now)
                 <==> Timely(age, command, period, now))
            && (Timely(age, command, period, now) ==>
                  match Judge(command, period, now)
                  case Now => instant <= n * WRAP + now
                  case ToCurrent => instant > n * WRAP + now && instant == n * WRAP + Plus(command, period)
                  case ToOverflow => instant > n * WRAP + now && instant == (n + 1) * WRAP + Plus(command, period))
  {
  }

  // -------------------------------------------------------------------- the steps

  predicate Shaped(d: Daemon, g: Book) {
    && |g.place| == |g.period| == |g.start| == |g.fired| == |g.next| && |g.issued| == |d.commands| && d.last < WRAP
    && (forall t :: 0 <= t < |g.period| ==> 0 < g.period[t] < WRAP)
    && (forall i :: 0 <= i < |d.current| ==> d.current[i].task < |g.place| && d.current[i].value < WRAP)
    && (forall i :: 0 <= i < |d.overflow| ==> d.overflow[i].task < |g.place| && d.overflow[i].value < WRAP)
    && (forall i :: 0 <= i < |d.commands| ==> d.commands[i].timer < |g.place| && d.commands[i].time < WRAP)
  }

  /** Puts the timer where the judgement says; if it has expired already, a start command is queued for `again`. */
  function Settle(d: Daemon, v: Verdict, t: Timer, expiry: nat, again: nat): Daemon {
    match v
    case Now => d.(commands := d.commands + [Command(t, again)])
    case ToCurrent => d.(current := AddSleeper(d.current, Sleeper(t, expiry)))
    case ToOverflow => d.(overflow := AddSleeper(d.overflow, Sleeper(t, expiry)))
  }

  function SpotOf(v: Verdict): Spot {
    match v
    case Now => Queued
    case ToCurrent => Near
    case ToOverflow => Far
  }

  /** prvProcessExpiredTimer, for the head of the current list. */
  function Expire(d: Daemon, period: seq<nat>, now: nat): Daemon
    requires d.current != [] && d.current[0].task < |period| && 0 < period[d.current[0].task] < WRAP
    requires d.current[0].value < WRAP && now < WRAP
  {
    var t, e := d.current[0].task, d.current[0].value;
    Settle(d.(current := d.current[1..]), Judge(e, period[t], now), t, Plus(e, period[t]), e)
  }

  /** One round of the loop of prvSwitchTimerLists. */
  function SwitchOne(d: Daemon, period: seq<nat>): Daemon
    requires d.current != [] && d.current[0].task < |period| && 0 < period[d.current[0].task] < WRAP
    requires d.current[0].value < WRAP
  {
    var t, e := d.current[0].task, d.current[0].value;
    var d1, reload := d.(current := d.current[1..]), Plus(e, period[t]);
    if reload > e then d1.(current := AddSleeper(d1.current, Sleeper(t, reload)))
    else d1.(commands := d.commands + [Command(t, e)])
  }

  // ---------------------------------------------------------------- the invariant

  ghost predicate Held(items: seq<Timer>, place: seq<Spot>, where: Spot) {
    NoDup(items) && forall t: nat :: t in items <==> t < |place| && place[t] == where
  }

  function CommandTimers(c: seq<Command>): (r: seq<Timer>)
    ensures |r| == |c| && forall i :: 0 <= i < |c| ==> r[i] == c[i].timer
  {
    seq(|c|, i requires 0 <= i < |c| => c[i].timer)
  }

  /** The list is in order, holds the timers placed there, and their values are their next instants. */
  ghost predicate ListOk(l: seq<Sleeper>, place: seq<Spot>, where: Spot, next: seq<nat>, era: nat) {
    && Held(Tasks(l), place, where) && Sorted(Times(l))
    && forall i :: 0 <= i < |l| ==>
         l[i].task < |next| && l[i].value < WRAP && next[l[i].task] == era * WRAP + l[i].value
  }

  /** A queued command will start its timer so that it expires at its next instant. */
  ghost predicate QueueOk(c: seq<Command>, issued: seq<nat>, place: seq<Spot>, next: seq<nat>, period: seq<nat>) {
    && Held(CommandTimers(c), place, Queued) && |issued| == |c|
    && forall i :: 0 <= i < |c| ==>
         && c[i].timer < |next| && c[i].timer < |period| && c[i].time < WRAP
         && next[c[i].timer] == issued[i] * WRAP + c[i].time + period[c[i].timer]
  }

  /** Instant k of a timer: its start plus k periods. */
  function Instant(start: nat, period: nat, k: nat): nat {
    if k == 0 then start else Instant(start, period, k - 1) + period
  }

  /** The instants for which timer t has been called. */
  function Called(log: seq<Call>, t: Timer): seq<nat> {
    if log == [] then []
    else Called(log[..|log| - 1], t) + if log[|log| - 1].timer == t then [log[|log| - 1].instant] else []
  }

  /** The callbacks of a timer have been for its first instants, in order, none left out; the next one is recorded. */
  ghost predicate TimerOk(g: Book, t: Timer)
    requires t < |g.fired| && t < |g.start| && t < |g.period| && t < |g.next| && t < |g.place|
  {
    && |Called(g.log, t)| == g.fired[t]
    && (forall k :: 0 <= k < g.fired[t] ==> Called(g.log, t)[k] == Instant(g.start[t], g.period[t], k + 1))
    && (g.place[t] != Idle ==> g.next[t] == Instant(g.start[t], g.period[t], g.fired[t] + 1))
  }

  /** No callback comes before its time, nor has one been made in the future. */
  ghost predicate LogOk(log: seq<Call>, now: nat) {
    forall i :: 0 <= i < |log| ==> log[i].instant <= log[i].at <= now
  }

  ghost predicate Consistent(d: Daemon, g: Book) {
    && Shaped(d, g)
    && ListOk(d.current, g.place, Near, g.next, g.era)
    && ListOk(d.overflow, g.place, Far, g.next, g.era + 1)
    && QueueOk(d.commands, g.issued, g.place, g.next, g.period)
    && (forall t :: 0 <= t < |g.place| ==> TimerOk(g, t))
    && LogOk(g.log, g.now)
  }

  // ------------------------------------------------------------------- list lemmas

  lemma {:induction false} HeldJoins(items: seq<Timer>, place: seq<Spot>, where: Spot, k: nat, t: Timer)
    requires Held(items, place, where) && k <= |items| && t < |place| && place[t] != where
    ensures Held(InsertAt(items, k, t), place[t := where], where)
  {
    InsertMembers(items, k, t);
    InsertNoDup(items, k, t);
  }

  lemma {:induction false} HeldLeaves(items: seq<Timer>, place: seq<Spot>, where: Spot, to: Spot)
    requires Held(items, place, where) && items != [] && to != where
    ensures items[0] < |place| && place[items[0]] == where && Held(items[1..], place[items[0] := to], where)
  {
    assert items[0] in items;
    assert RemoveAt(items, 0) == items[1..];
    RemoveNoDup(items, 0);
  }

  lemma {:induction false} HeldStays(items: seq<Timer>, place: seq<Spot>, where: Spot, t: Timer, to: Spot)
    requires Held(items, place, where) && t < |place| && place[t] != where && to != where
    ensures Held(items, place[t := to], where)
  {
  }

  lemma {:induction false} ListLeaves(l: seq<Sleeper>, place: seq<Spot>, where: Spot, next: seq<nat>, era: nat,
                                      to: Spot, n: nat)
    requires ListOk(l, place, where, next, era) && l != [] && to != where
    ensures var t := l[0].task;
            && t < |place| && place[t] == where && t < |next| && next[t] == era * WRAP + l[0].value && l[0].value < WRAP
            && ListOk(l[1..], place[t := to], where, next[t := n], era)
  {
    hide NoDup;
    var t := l[0].task;
    HeldLeaves(Tasks(l), place, where, to);
    assert Tasks(l[1..]) == Tasks(l)[1..];
    TailSorted(l);
    forall i | 0 <= i < |l[1..]|
      ensures l[1..][i].task != t
    {
      assert Tasks(l[1..])[i] in Tasks(l[1..]);
    }
  }

  lemma {:induction false} TailSorted(l: seq<Sleeper>)
    requires l != [] && Sorted(Times(l))
    ensures Sorted(Times(l[1..]))
  {
    assert forall i :: 0 <= i < |l[1..]| ==> Times(l[1..])[i] == Times(l)[i + 1];
  }

  lemma {:induction false} ListStays(l: seq<Sleeper>, place: seq<Spot>, where: Spot, next: seq<nat>, era: nat, t: Timer,
                                     to: Spot, n: nat)
    requires ListOk(l, place, where, next, era) && t < |place| && t < |next| && place[t] != where && to != where
    ensures ListOk(l, place[t := to], where, next[t := n], era)
  {
    HeldStays(Tasks(l), place, where, t, to);
    forall i | 0 <= i < |l|
      ensures l[i].task != t
    {
      assert Tasks(l)[i] in Tasks(l);
    }
  }

  lemma {:induction false} ListJoins(l: seq<Sleeper>, place: seq<Spot>, where: Spot, next: seq<nat>, era: nat, t: Timer,
                                     v: nat)
    requires ListOk(l, place, where, next, era) && t < |place| && t < |next| && place[t] != where && v < WRAP
    ensures ListOk(AddSleeper(l, Sleeper(t, v)), place[t := where], where, next[t := era * WRAP + v], era)
  {
    hide Sorted, NoDup, Tasks, Times;
    var x, k := Sleeper(t, v), UpTo(Times(l), v);
    HeldJoins(Tasks(l), place, where, k, t);
    InsertSorted(Times(l), v);
    InsertParts(l, k, x);
    NextAfterInsert(l, place, where, next, era, k, x);
  }

  lemma {:induction false} NextAfterInsert(l: seq<Sleeper>, place: seq<Spot>, where: Spot, next: seq<nat>, era: nat,
                                           k: nat, x: Sleeper)
    requires ListOk(l, place, where, next, era) && k <= |l| && x.value < WRAP && x.task < |place| && x.task < |next|
    requires place[x.task] != where
    ensures var r, next' := InsertAt(l, k, x), next[x.task := era * WRAP + x.value];
            forall i :: 0 <= i < |r| ==>
                r[i].task < |next'| && r[i].value < WRAP && next'[r[i].task] == era * WRAP + r[i].value
  {
    hide Sorted, NoDup;
    var r := InsertAt(l, k, x);
    forall i | 0 <= i < |r| && i != k
      ensures r[i].task != x.task && r[i] in l
    {
      var j := if i < k then i else i - 1;
      assert r[i] == l[j] && Tasks(l)[j] in Tasks(l);
    }
  }

  // ----------------------------------------------------------------- queue lemmas

  lemma {:induction false} QueueStays(c: seq<Command>, issued: seq<nat>, place: seq<Spot>, next: seq<nat>,
                                      period: seq<nat>,
                                      t: Timer, to: Spot, n: nat)
    requires QueueOk(c, issued, place, next, period) && t < |place| && t < |next| && place[t] != Queued && to != Queued
    ensures QueueOk(c, issued, place[t := to], next[t := n], period)
  {
    HeldStays(CommandTimers(c), place, Queued, t, to);
    forall i | 0 <= i < |c|
      ensures c[i].timer != t
    {
      assert CommandTimers(c)[i] in CommandTimers(c);
    }
  }

  lemma {:induction false} QueueJoins(c: seq<Command>, issued: seq<nat>, place: seq<Spot>, next: seq<nat>,
                                      period: seq<nat>,
                                      x: Command, era: nat)
    requires QueueOk(c, issued, place, next, period) && x.timer < |place| == |next| == |period|
    requires place[x.timer] != Queued && x.time < WRAP
    requires next[x.timer] == era * WRAP + x.time + period[x.timer]
    ensures QueueOk(c + [x], issued + [era], place[x.timer := Queued], next, period)
  {
    var ts := CommandTimers(c);
    HeldJoins(ts, place, Queued, |ts|, x.timer);
    assert CommandTimers(c + [x]) == InsertAt(ts, |ts|, x.timer);
  }

  lemma {:induction false} QueueLeaves(c: seq<Command>, issued: seq<nat>, place: seq<Spot>, next: seq<nat>,
                                       period: seq<nat>)
    requires QueueOk(c, issued, place, next, period) && c != []
    ensures var t := c[0].timer;
            t < |place| && place[t] == Queued && QueueOk(c[1..], issued[1..], place[t := Idle], next, period)
  {
    HeldLeaves(CommandTimers(c), place, Queued, Idle);
    assert CommandTimers(c[1..]) == CommandTimers(c)[1..];
  }

  // --------------------------------------------------------------- pieces of steps

  /** Timer t is being dealt with: it is nowhere, and its next instant is known. */
  ghost predicate InHand(d: Daemon, g: Book, t: Timer) {
    Consistent(d, g) && t < |g.place| && g.place[t] == Idle
        && g.next[t] == Instant(g.start[t], g.period[t], g.fired[t] + 1)
  }

  lemma {:induction false} Reset(g: Book, t: Timer, u: Timer, issued: seq<nat>)
    requires |g.place| == |g.period| == |g.start| == |g.fired| == |g.next| && t < |g.place| && u < |g.place|
    requires TimerOk(g, u)
    ensures TimerOk(g.(place := g.place[t := Idle], issued := issued), u)
  {
  }

  /** The head of the current list is taken out. */
  lemma {:induction false} TakeHead(d: Daemon, g: Book)
    requires Consistent(d, g) && d.current != []
    ensures var t := d.current[0].task;
            && InHand(d.(current := d.current[1..]), g.(place := g.place[t := Idle]), t)
            && g.next[t] == g.era * WRAP + d.current[0].value
  {
    hide ListOk, QueueOk, TimerOk, Held;
    var t := d.current[0].task;
    ListLeaves(d.current, g.place, Near, g.next, g.era, Idle, g.next[t]);
    assert g.next[t := g.next[t]] == g.next;
    ListStays(d.overflow, g.place, Far, g.next, g.era + 1, t, Idle, g.next[t]);
    QueueStays(d.commands, g.issued, g.place, g.next, g.period, t, Idle, g.next[t]);
    var g1 := g.(place := g.place[t := Idle], issued := g.issued);
    forall u | 0 <= u < |g1.place|
      ensures TimerOk(g1, u)
    {
      Reset(g, t, u, g.issued);
    }
    NextIs(g, t);
  }

  lemma {:induction false} NextIs(g: Book, t: Timer)
    requires t < |g.fired| && t < |g.start| && t < |g.period| && t < |g.next| && t < |g.place| && TimerOk(g, t)
    requires g.place[t] != Idle
    ensures g.next[t] == Instant(g.start[t], g.period[t], g.fired[t] + 1)
  {
  }

  /** The head of the command queue is taken out. */
  lemma {:induction false} TakeCommand(d: Daemon, g: Book)
    requires Consistent(d, g) && d.commands != []
    ensures var t := d.commands[0].timer;
            && InHand(d.(commands := d.commands[1..]), g.(place := g.place[t := Idle], issued := g.issued[1..]), t)
            && g.next[t] == g.issued[0] * WRAP + d.commands[0].time + g.period[t]
  {
    hide ListOk, TimerOk, Held;
    var t := d.commands[0].timer;
    QueueLeaves(d.commands, g.issued, g.place, g.next, g.period);
    assert g.next[t := g.next[t]] == g.next;
    ListStays(d.current, g.place, Near, g.next, g.era, t, Idle, g.next[t]);
    ListStays(d.overflow, g.place, Far, g.next, g.era + 1, t, Idle, g.next[t]);
    var g1 := g.(place := g.place[t := Idle], issued := g.issued[1..]);
    forall u | 0 <= u < |g1.place|
      ensures TimerOk(g1, u)
    {
      Reset(g, t, u, g.issued[1..]);
    }
    NextIs(g, t);
  }

  /** The callback of timer t is made for its next instant. */
  function Fired(g: Book, t: Timer, at: nat): Book
    requires t < |g.fired| && t < |g.next| && t < |g.period|
  {
    g.(fired := g.fired[t := g.fired[t] + 1], next := g.next[t := g.next[t] + g.period[t]],
        log := g.log + [Call(t, g.next[t], at)])
  }

  lemma {:induction false} CalledMore(log: seq<Call>, c: Call, t: Timer)
    ensures Called(log + [c], t) == Called(log, t) + if c.timer == t then [c.instant] else []
  {
    assert (log + [c])[..|log|] == log;
  }

  lemma {:induction false} FireTimer(g: Book, t: Timer, at: nat, u: Timer)
    requires |g.place| == |g.period| == |g.start| == |g.fired| == |g.next| && t < |g.place| && u < |g.place|
    requires TimerOk(g, u)
    requires g.place[t] == Idle && g.next[t] == Instant(g.start[t], g.period[t], g.fired[t] + 1)
    ensures TimerOk(Fired(g, t, at), u)
  {
    CalledMore(g.log, Call(t, g.next[t], at), u);
  }

  lemma {:induction false} FireInv(d: Daemon, g: Book, t: Timer, at: nat)
    requires InHand(d, g, t) && g.next[t] <= at <= g.now
    ensures InHand(d, Fired(g, t, at), t)
  {
    hide ListOk, QueueOk, TimerOk, Held;
    var n := g.next[t] + g.period[t];
    assert g.place[t := Idle] == g.place;
    ListStays(d.current, g.place, Near, g.next, g.era, t, Idle, n);
    ListStays(d.overflow, g.place, Far, g.next, g.era + 1, t, Idle, n);
    QueueStays(d.commands, g.issued, g.place, g.next, g.period, t, Idle, n);
    forall u | 0 <= u < |g.place|
      ensures TimerOk(Fired(g, t, at), u)
    {
      FireTimer(g, t, at, u);
    }
  }

  /** Timer t is put where its next instant belongs. */
  function Settled(g: Book, t: Timer, v: Verdict, era: nat): Book
    requires t < |g.place|
  {
    g.(place := g.place[t := SpotOf(v)], issued := if v == Now then g.issued + [era] else g.issued)
  }

  /** The place is right: the value, or the command, stands for the next instant. */
  ghost predicate Fits(d: Daemon, g: Book, t: Timer, v: Verdict, expiry: nat, again: nat, era: nat)
    requires t < |g.next| && t < |g.period|
  {
    match v
    case Now => again < WRAP && g.next[t] == era * WRAP + again + g.period[t]
    case ToCurrent => expiry < WRAP && g.next[t] == g.era * WRAP + expiry
    case ToOverflow => expiry < WRAP && g.next[t] == (g.era + 1) * WRAP + expiry
  }

  lemma {:induction false} SettleInv(d: Daemon, g: Book, t: Timer, v: Verdict, expiry: nat, again: nat, era: nat)
    requires InHand(d, g, t) && Fits(d, g, t, v, expiry, again, era)
    ensures Consistent(Settle(d, v, t, expiry, again), Settled(g, t, v, era))
  {
    hide ListOk, QueueOk, TimerOk, Held, AddSleeper;
    var to, n := SpotOf(v), g.next[t];
    assert g.next[t := n] == g.next;
    match v {
      case Now =>
        QueueJoins(d.commands, g.issued, g.place, g.next, g.period, Command(t, again), era);
        ListStays(d.current, g.place, Near, g.next, g.era, t, to, n);
        ListStays(d.overflow, g.place, Far, g.next, g.era + 1, t, to, n);
      case ToCurrent =>
        ListJoins(d.current, g.place, Near, g.next, g.era, t, expiry);
        ListStays(d.overflow, g.place, Far, g.next, g.era + 1, t, to, n);
        QueueStays(d.commands, g.issued, g.place, g.next, g.period, t, to, n);
        SleeperSizes(d.current, |g.place|, Sleeper(t, expiry));
      case ToOverflow =>
        ListJoins(d.overflow, g.place, Far, g.next, g.era + 1, t, expiry);
        ListStays(d.current, g.place, Near, g.next, g.era, t, to, n);
        QueueStays(d.commands, g.issued, g.place, g.next, g.period, t, to, n);
        SleeperSizes(d.overflow, |g.place|, Sleeper(t, expiry));
    }
    forall u | 0 <= u < |g.place|
      ensures TimerOk(Settled(g, t, v, era), u)
    {
      SettleTimer(g, t, v, era, u);
    }
  }

  lemma {:induction false} SettleTimer(g: Book, t: Timer, v: Verdict, era: nat, u: Timer)
    requires |g.place| == |g.period| == |g.start| == |g.fired| == |g.next| && t < |g.place| && u < |g.place|
    requires TimerOk(g, u)
    requires g.next[t] == Instant(g.start[t], g.period[t], g.fired[t] + 1)
    ensures TimerOk(Settled(g, t, v, era), u)
  {
  }

  lemma {:induction false} SleeperSizes(l: seq<Sleeper>, n: nat, x: Sleeper)
    requires x.task < n && x.value < WRAP && forall i :: 0 <= i < |l| ==> l[i].task < n && l[i].value < WRAP
    ensures var r := AddSleeper(l, x);
            forall i :: 0 <= i < |r| ==> r[i].task < n && r[i].value < WRAP
  {
    Earliest(l, x);
  }

  // ------------------------------------------------------------------- the steps

  /** The daemon's lists belong to the era of its last sample. */
  ghost predicate Synced(d: Daemon, g: Book) {
    g.now == g.era * WRAP + d.last
  }

  function ExpireLedger(d: Daemon, g: Book): Book
    requires Shaped(d, g) && d.current != []
  {
    var t, e := d.current[0].task, d.current[0].value;
    Settled(Fired(g.(place := g.place[t := Idle]), t, g.now), t, Judge(e, g.period[t], d.last), g.era)
  }

  /** An expired timer is called for its instant, and its next instant is kept in exactly one place. */
  lemma {:induction false} ExpireInv(d: Daemon, g: Book)
    requires Consistent(d, g) && Synced(d, g) && d.current != [] && d.current[0].value <= d.last
    ensures Consistent(Expire(d, g.period, d.last), ExpireLedger(d, g))
  {
    hide ListOk, QueueOk, TimerOk, Held, AddSleeper;
    var t, e := d.current[0].task, d.current[0].value;
    var d1, g1 := d.(current := d.current[1..]), g.(place := g.place[t := Idle]);
    TakeHead(d, g);
    FireInv(d1, g1, t, g.now);
    JudgeExact(g.era, e, g.period[t], g.era, d.last);
    SettleInv(d1, Fired(g1, t, g.now), t, Judge(e, g.period[t], d.last), Plus(e, g.period[t]), e, g.era);
  }

  function SwitchLedger(d: Daemon, g: Book): Book
    requires Shaped(d, g) && d.current != []
  {
    var t, e := d.current[0].task, d.current[0].value;
    Settled(Fired(g.(place := g.place[t := Idle]), t, g.now), t, if Plus(e, g.period[t]) > e then ToCurrent
        else Now, g.era)
  }

  /** At a wrap every timer left in the current list has expired. */
  lemma {:induction false} SwitchOneInv(d: Daemon, g: Book)
    requires Consistent(d, g) && d.current != [] && g.now >= (g.era + 1) * WRAP
    ensures Consistent(SwitchOne(d, g.period), SwitchLedger(d, g))
  {
    hide ListOk, QueueOk, TimerOk, Held, AddSleeper;
    var t, e := d.current[0].task, d.current[0].value;
    var d1, g1 := d.(current := d.current[1..]), g.(place := g.place[t := Idle]);
    TakeHead(d, g);
    FireInv(d1, g1, t, g.now);
    SettleInv(d1, Fired(g1, t, g.now), t, if Plus(e, g.period[t]) > e then ToCurrent
        else Now, Plus(e, g.period[t]), e, g.era);
  }

  /** With the current list empty the overflow list takes its place. */
  lemma {:induction false} SwapInv(d: Daemon, g: Book, last: nat)
    requires Consistent(d, g) && d.current == [] && last < WRAP
    ensures Consistent(Daemon(d.overflow, [], d.commands, last), g.(era := g.era + 1, place := Swapped(g.place)))
  {
    var g1 := g.(era := g.era + 1, place := Swapped(g.place));
    assert Held(Tasks(d.current), g.place, Near);
    assert forall t :: 0 <= t < |g.place| ==> g.place[t] != Near by {
      assert forall t: nat :: t !in Tasks(d.current);
    }
    forall u | 0 <= u < |g1.place|
      ensures TimerOk(g1, u)
    {
      assert TimerOk(g, u);
    }
  }

  function Swapped(place: seq<Spot>): (r: seq<Spot>)
    ensures |r| == |place| && forall t :: 0 <= t < |place| ==> r[t] == if place[t] == Far then Near else place[t]
  {
    seq(|place|, t requires 0 <= t < |place| => if place[t] == Far then Near else place[t])
  }

  lemma {:induction false} LaterInv(d: Daemon, g: Book, now: nat)
    requires Consistent(d, g) && g.now <= now
    ensures Consistent(d, g.(now := now))
  {
    hide ListOk, TimerOk;
    var g1 := g.(now := now);
    forall u | 0 <= u < |g1.place|
      ensures TimerOk(g1, u)
    {
      SameTimer(g, now, u);
    }
  }

  lemma {:induction false} SameTimer(g: Book, now: nat, u: Timer)
    requires u < |g.fired| && u < |g.start| && u < |g.period| && u < |g.next| && u < |g.place| && TimerOk(g, u)
    ensures TimerOk(g.(now := now), u)
  {
  }

  /** Processing the start command at the head of the queue. */
  function Obey(d: Daemon, period: seq<nat>): Daemon
    requires d.commands != [] && d.commands[0].timer < |period| && 0 < period[d.commands[0].timer] < WRAP
    requires d.commands[0].time < WRAP && d.last < WRAP
  {
    var t, c := d.commands[0].timer, d.commands[0].time;
    var expiry := Plus(c, period[t]);
    Settle(d.(commands := d.commands[1..]), Judge(c, period[t], d.last), t, expiry, expiry)
  }

  /** If the timer has expired already it is called at once. */
  function ObeyLedger(d: Daemon, g: Book): Book
    requires Shaped(d, g) && d.commands != []
  {
    var t, c := d.commands[0].timer, d.commands[0].time;
    var v, g1 := Judge(c, g.period[t], d.last), g.(place := g.place[t := Idle], issued := g.issued[1..]);
    Settled(if v == Now then Fired(g1, t, g.now) else g1, t, v, if c + g.period[t] < WRAP then g.issued[0]
        else g.issued[0] + 1)
  }

  /** The tick count has been sampled since the first command was issued. */
  ghost predicate Sampled(d: Daemon, g: Book) {
    d.commands != [] && g.issued != [] && g.issued[0] * WRAP + d.commands[0].time <= g.now
  }

  /** The first command is timely. */
  ghost predicate ObeyedInTime(d: Daemon, g: Book)
    requires Shaped(d, g) && Sampled(d, g)
  {
    var c := d.commands[0];
    Timely(g.now - (g.issued[0] * WRAP + c.time), c.time, g.period[c.timer], d.last)
  }

  /** A command that is obeyed in time loses no instant. */
  lemma {:induction false} ObeyInv(d: Daemon, g: Book)
    requires Consistent(d, g) && Synced(d, g) && Sampled(d, g) && ObeyedInTime(d, g)
    ensures Consistent(Obey(d, g.period), ObeyLedger(d, g))
  {
    hide ListOk, QueueOk, TimerOk, Held, AddSleeper;
    var t, c := d.commands[0].timer, d.commands[0].time;
    var d1, g1 := d.(commands := d.commands[1..]), g.(place := g.place[t := Idle], issued := g.issued[1..]);
    TakeCommand(d, g);
    var v, expiry := Judge(c, g.period[t], d.last), Plus(c, g.period[t]);
    JudgeExact(g.issued[0], c, g.period[t], g.era, d.last);
    var era := if c + g.period[t] < WRAP then g.issued[0] else g.issued[0] + 1;
    if v == Now {
      FireInv(d1, g1, t, g.now);
      SettleInv(d1, Fired(g1, t, g.now), t, v, expiry, expiry, era);
    } else {
      SettleInv(d1, g1, t, v, expiry, expiry, era);
    }
  }

  lemma {:induction false} NewcomerNext(l: seq<Sleeper>, x: Sleeper, place: seq<Spot>, where: Spot, next: seq<nat>,
                                        era: nat)
    requires ListOk(AddSleeper(l, x), place, where, next, era)
    ensures x.task < |next| && next[x.task] == era * WRAP + x.value
  {
    var r := AddSleeper(l, x);
    assert r[UpTo(Times(l), x.value)] == x;
  }

  /** Obeying a command keeps the timer's next instant on record if and only if it is obeyed in time. */
  lemma {:induction false} ObeyExact(d: Daemon, g: Book)
    requires Consistent(d, g) && Synced(d, g) && Sampled(d, g)
    ensures Consistent(Obey(d, g.period), ObeyLedger(d, g)) <==> ObeyedInTime(d, g)
  {
    if ObeyedInTime(d, g) {
      ObeyInv(d, g);
    } else {
      hide ListOk, TimerOk, Held, AddSleeper;
      var t, c := d.commands[0].timer, d.commands[0].time;
      var v, expiry, r, gr := Judge(c, g.period[t], d.last), Plus(c, g.period[t]), Obey(d, g.period), ObeyLedger(d, g);
      TakeCommand(d, g);
      JudgeExact(g.issued[0], c, g.period[t], g.era, d.last);
      if v == ToCurrent && ListOk(r.current, gr.place, Near, gr.next, gr.era) {
        NewcomerNext(d.current, Sleeper(t, expiry), gr.place, Near, gr.next, gr.era);
      } else if v == ToOverflow && ListOk(r.overflow, gr.place, Far, gr.next, gr.era + 1) {
        NewcomerNext(d.overflow, Sleeper(t, expiry), gr.place, Far, gr.next, gr.era + 1);
      }
    }
  }

  // --------------------------------------------------------------------- starting

  /** The books of timers that have never been started. */
  function Blank(period: seq<nat>): Book {
    var zeros := seq(|period|, _ => 0);
    Book(0, 0, [], seq(|period|, _ => Idle), period, zeros, zeros, zeros, [])
  }

  /** A timer that is nowhere is started at tick `time` of an era, whether or not the daemon has got there yet. */
  function Started(g: Book, t: Timer, era: nat, time: nat): Book
    requires t < |g.place| && t < |g.start| && t < |g.fired| && t < |g.next| && t < |g.period|
  {
    var at := era * WRAP + time;
    g.(start := g.start[t := at], next := g.next[t := at + g.period[t]], place := g.place[t := Queued],
        issued := g.issued + [era])
  }

  lemma {:induction false} StartInv(d: Daemon, g: Book, t: Timer, era: nat, time: nat)
    requires Consistent(d, g) && t < |g.place| && g.place[t] == Idle && g.fired[t] == 0 && time < WRAP
    ensures Consistent(d.(commands := d.commands + [Command(t, time)]), Started(g, t, era, time))
  {
    hide ListOk, QueueOk, TimerOk, Held;
    var n := era * WRAP + time + g.period[t];
    assert g.place[t := Idle] == g.place;
    ListStays(d.current, g.place, Near, g.next, g.era, t, Queued, n);
    ListStays(d.overflow, g.place, Far, g.next, g.era + 1, t, Queued, n);
    QueueStays(d.commands, g.issued, g.place, g.next, g.period, t, Idle, n);
    QueueJoins(d.commands, g.issued, g.place, g.next[t := n], g.period, Command(t, time), era);
    var g1 := Started(g, t, era, time);
    forall u | 0 <= u < |g1.place|
      ensures TimerOk(g1, u)
    {
      StartTimer(g, t, era, time, u);
    }
  }

  lemma {:induction false} StartTimer(g: Book, t: Timer, era: nat, time: nat, u: Timer)
    requires |g.place| == |g.period| == |g.start| == |g.fired| == |g.next| && t < |g.place| && u < |g.place|
    requires TimerOk(g, u)
    requires g.fired[t] == 0
    ensures TimerOk(Started(g, t, era, time), u)
  {
    var at := era * WRAP + time;
    assert Instant(at, g.period[t], 1) == Instant(at, g.period[t], 0) + g.period[t];
  }

  // --------------------------------------------------------------- nothing missed

  /** The daemon has caught up: no command is queued and the head of the current list is in the future. */
  ghost predicate CaughtUp(d: Daemon) {
    d.commands == [] && (d.current == [] || d.current[0].value > d.last)
  }

  lemma {:induction false} NextIsAhead(d: Daemon, g: Book, t: Timer)
    requires Consistent(d, g) && Synced(d, g) && CaughtUp(d) && t < |g.place| && g.place[t] != Idle
    ensures g.next[t] > g.now
  {
    hide TimerOk;
    assert g.place[t] != Queued by {
      assert t !in CommandTimers(d.commands);
    }
    if g.place[t] == Near {
      var i :| 0 <= i < |d.current| && Tasks(d.current)[i] == t;
      assert i > 0 ==> Times(d.current)[0] <= Times(d.current)[i];
    } else if g.place[t] == Far {
      var i :| 0 <= i < |d.overflow| && Tasks(d.overflow)[i] == t;
    }
  }

  lemma {:induction false} InstantGrows(start: nat, period: nat, j: nat, k: nat)
    requires j <= k
    ensures Instant(start, period, j) <= Instant(start, period, k)
  {
    if j < k {
      InstantGrows(start, period, j, k - 1);
    }
  }

  /** Every callback was for an instant that has passed. */
  lemma {:induction false} CalledPast(log: seq<Call>, now: nat, t: Timer, k: nat)
    requires LogOk(log, now) && k < |Called(log, t)|
    ensures Called(log, t)[k] <= now
  {
    var n := |log| - 1;
    if k < |Called(log[..n], t)| {
      assert forall i :: 0 <= i < n ==> log[..n][i] == log[i];
      CalledPast(log[..n], now, t, k);
    }
  }

  /**
   * Once the daemon has caught up, a timer has been called exactly for its instants up to
   * now: each of them once, in order, and none before its time.
   */
  lemma {:induction false} ExactlyOnce(d: Daemon, g: Book, t: Timer, k: nat)
    requires Consistent(d, g) && Synced(d, g) && CaughtUp(d) && t < |g.place| && g.place[t] != Idle && k >= 1
    ensures k <= |Called(g.log, t)| <==> Instant(g.start[t], g.period[t], k) <= g.now
    ensures k <= |Called(g.log, t)| ==> Called(g.log, t)[k - 1] == Instant(g.start[t], g.period[t], k)
  {
    hide ListOk, QueueOk;
    assert TimerOk(g, t);
    NextIsAhead(d, g, t);
    if k > g.fired[t] {
      InstantGrows(g.start[t], g.period[t], g.fired[t] + 1, k);
    } else {
      CalledPast(g.log, g.now, t, k - 1);
    }
  }

  // ------------------------------------------------------------------ termination

  /** How far the values of the list are from the wrap, in all. */
  function Left(l: seq<Sleeper>): nat
    requires forall i :: 0 <= i < |l| ==> l[i].value < WRAP
  {
    if l == [] then 0 else WRAP - l[0].value + Left(l[1..])
  }

  lemma {:induction false} LeftInsert(l: seq<Sleeper>, k: nat, x: Sleeper)
    requires k <= |l| && x.value < WRAP && forall i :: 0 <= i < |l| ==> l[i].value < WRAP
    ensures (forall i :: 0 <= i < |InsertAt(l, k, x)| ==> InsertAt(l, k, x)[i].value < WRAP)
    ensures Left(InsertAt(l, k, x)) == Left(l) + WRAP - x.value
    decreases k
  {
    var r := InsertAt(l, k, x);
    assert forall i :: 0 <= i < |r| ==> r[i] == if i < k then l[i] else if i == k then x else l[i - 1];
    if k == 0 {
      assert r[1..] == l;
    } else {
      assert r[1..] == InsertAt(l[1..], k - 1, x);
      LeftInsert(l[1..], k - 1, x);
    }
  }

  /** Each round of the switch brings the list closer to empty: a timer that goes back has a later value. */
  lemma {:induction false} SwitchShrinks(d: Daemon, g: Book)
    requires Shaped(d, g) && d.current != []
    ensures var r := SwitchOne(d, g.period);
            (forall i :: 0 <= i < |r.current| ==> r.current[i].value < WRAP) && Left(r.current) < Left(d.current)
  {
    var t, e := d.current[0].task, d.current[0].value;
    var reload, l := Plus(e, g.period[t]), d.current[1..];
    if reload > e {
      LeftInsert(l, UpTo(Times(l), reload), Sleeper(t, reload));
    }
  }

  // ------------------------------------------------------------------------- runs

  /** prvSwitchTimerLists: the timers left in the current list are worked off, then the lists change places. */
  ghost function SwitchAll(d: Daemon, g: Book, now: nat): (r: (Daemon, Book))
    requires Consistent(d, g) && g.now >= (g.era + 1) * WRAP && now < WRAP
    requires forall i :: 0 <= i < |d.current| ==> d.current[i].value < WRAP
    ensures Consistent(r.0, r.1) && r.0.last == now && r.1.now == g.now && r.1.era == g.era + 1
    decreases Left(d.current)
  {
    if d.current == [] then
      SwapInv(d, g, now);
      (Daemon(d.overflow, [], d.commands, now), g.(era := g.era + 1, place := Swapped(g.place)))
    else
      HeadFits(d, g);
      SwitchOneInv(d, g);
      SwitchShrinks(d, g);
      SwitchKeeps(d, g);
      SwitchAll(SwitchOne(d, g.period), SwitchLedger(d, g), now)
  }

  /** The tick count was sampled at most one wrap after the last sample. */
  ghost predicate SampleOk(d: Daemon, g: Book, now: nat, time: nat) {
    now < WRAP && g.now <= time && time == (if now < d.last then g.era + 1 else g.era) * WRAP + now
  }

  /** prvSampleTimeNow */
  ghost function Sample(d: Daemon, g: Book, now: nat, time: nat): (r: (Daemon, Book))
    requires Consistent(d, g) && SampleOk(d, g, now, time)
    ensures Consistent(r.0, r.1) && Synced(r.0, r.1) && r.1.now == time
  {
    LaterInv(d, g, time);
    ListSized(d, g);
    LastAny(d, g.(now := time), now);
    if now < d.last then SwitchAll(d, g.(now := time), now) else (d.(last := now), g.(now := time))
  }

  datatype Step = StartStep(t: Timer, era: nat, tick: nat) | SampleStep(now: nat, time: nat) | ExpireStep | ObeyStep

  /** A timer is started once; a command is obeyed after a sample that follows it, and in time. */
  ghost predicate Enabled(d: Daemon, g: Book, st: Step) {
    match st
    case StartStep(t, era, tick) => t < |g.place| && t < |g.fired| && g.place[t] == Idle && g.fired[t] == 0
        && tick < WRAP
    case SampleStep(now, time) => SampleOk(d, g, now, time)
    case ExpireStep => d.current != [] && d.current[0].value <= d.last
    case ObeyStep => Shaped(d, g) && Sampled(d, g) && ObeyedInTime(d, g)
  }

  ghost function After(d: Daemon, g: Book, st: Step): (r: (Daemon, Book))
    requires Consistent(d, g) && Synced(d, g) && Enabled(d, g, st)
    ensures Consistent(r.0, r.1) && Synced(r.0, r.1)
  {
    CommandSizes(d, g);
    match st
    case StartStep(t, era, tick) =>
      StartInv(d, g, t, era, tick);
      (d.(commands := d.commands + [Command(t, tick)]), Started(g, t, era, tick))
    case SampleStep(now, time) => Sample(d, g, now, time)
    case ExpireStep =>
      HeadFits(d, g);
      ExpireInv(d, g);
      (Expire(d, g.period, d.last), ExpireLedger(d, g))
    case ObeyStep =>
      CommandFits(d, g);
      ObeyInv(d, g);
      (Obey(d, g.period), ObeyLedger(d, g))
  }

  ghost predicate Run(worlds: seq<(Daemon, Book)>, steps: seq<Step>) {
    && |worlds| == |steps| + 1 && Consistent(worlds[0].0, worlds[0].1) && Synced(worlds[0].0, worlds[0].1)
    && forall i :: 0 <= i < |steps| ==> Follows(worlds[i], steps[i], worlds[i + 1])
  }

  ghost predicate Follows(w: (Daemon, Book), st: Step, r: (Daemon, Book)) {
    Consistent(w.0, w.1) && Synced(w.0, w.1) && Enabled(w.0, w.1, st) && r == After(w.0, w.1, st)
  }

  lemma {:induction false} RunInv(worlds: seq<(Daemon, Book)>, steps: seq<Step>, i: nat)
    requires Run(worlds, steps) && i <= |steps|
    ensures Consistent(worlds[i].0, worlds[i].1) && Synced(worlds[i].0, worlds[i].1)
  {
    hide Consistent, Synced, After;
    if i > 0 {
      assert Follows(worlds[i - 1], steps[i - 1], worlds[i]);
    }
  }

  /**
   * In every run, whenever the daemon has caught up, every timer that was started has had
   * exactly one callback for each of its instants up to the present, in order.
   */
  lemma {:induction false} RunExact(worlds: seq<(Daemon, Book)>, steps: seq<Step>, i: nat, t: Timer, k: nat)
    requires Run(worlds, steps) && i <= |steps| && CaughtUp(worlds[i].0) && k >= 1
    requires t < |worlds[i].1.place| && worlds[i].1.place[t] != Idle
    ensures var g := worlds[i].1;
            && t < |g.start| && t < |g.period|
            && (k <= |Called(g.log, t)| <==> Instant(g.start[t], g.period[t], k) <= g.now)
            && (k <= |Called(g.log, t)| ==> Called(g.log, t)[k - 1] == Instant(g.start[t], g.period[t], k))
  {
    hide Consistent, Follows, Called, Instant;
    RunInv(worlds, steps, i);
    CommandSizes(worlds[i].0, worlds[i].1);
    ExactlyOnce(worlds[i].0, worlds[i].1, t, k);
  }

  /** Timer t runs: it was started at `start`. */
  ghost predicate Going(g: Book, t: Timer, start: nat, period: nat) {
    && t < |g.place| && t < |g.start| && t < |g.period|
    && g.place[t] != Idle && g.start[t] == start && g.period[t] == period
  }

  lemma {:induction false} SwitchGoing(d: Daemon, g: Book, now: nat, t: Timer, start: nat, period: nat)
    requires Consistent(d, g) && g.now >= (g.era + 1) * WRAP && now < WRAP && Going(g, t, start, period)
    requires forall i :: 0 <= i < |d.current| ==> d.current[i].value < WRAP
    ensures Going(SwitchAll(d, g, now).1, t, start, period)
    decreases Left(d.current)
  {
    hide Consistent;
    if d.current != [] {
      HeadFits(d, g);
      SwitchOneInv(d, g);
      SwitchShrinks(d, g);
      SwitchKeeps(d, g);
      hide SwitchOne, Going;
      LedgerGoing(d, g, t, start, period);
      SwitchGoing(SwitchOne(d, g.period), SwitchLedger(d, g), now, t, start, period);
    }
  }

  lemma {:induction false} LedgerGoing(d: Daemon, g: Book, t: Timer, start: nat, period: nat)
    requires Shaped(d, g) && Going(g, t, start, period)
    ensures d.current != [] ==>
            Going(SwitchLedger(d, g), t, start, period) && Going(ExpireLedger(d, g), t, start, period)
    ensures d.commands != [] ==> Going(ObeyLedger(d, g), t, start, period)
  {
  }

  lemma {:induction false} StepGoing(d: Daemon, g: Book, st: Step, t: Timer, start: nat, period: nat)
    requires Consistent(d, g) && Synced(d, g) && Enabled(d, g, st)
    requires if st.StartStep? && st.t == t then t < |g.period| && start == st.era * WRAP + st.tick
             && period == g.period[t]
             else Going(g, t, start, period)
    ensures Going(After(d, g, st).1, t, start, period)
  {
    hide Consistent, SwitchAll, SwitchLedger, ExpireLedger, ObeyLedger, Obey, Expire;
    CommandSizes(d, g);
    match st
    case StartStep(u, era, tick) =>
    case SampleStep(now, time) =>
      LaterInv(d, g, time);
      ListSized(d, g);
      if now < d.last {
        SwitchGoing(d, g.(now := time), now, t, start, period);
      }
    case ExpireStep =>
      HeadFits(d, g);
      LedgerGoing(d, g, t, start, period);
    case ObeyStep => LedgerGoing(d, g, t, start, period);
  }

  lemma {:induction false} RunGoing(worlds: seq<(Daemon, Book)>, steps: seq<Step>, i: nat, j: nat, t: Timer)
    requires Run(worlds, steps) && i < j <= |steps| && steps[i].StartStep? && steps[i].t == t
    ensures t < |worlds[i].1.period|
    ensures Going(worlds[j].1, t, steps[i].era * WRAP + steps[i].tick, worlds[i].1.period[t])
  {
    hide Consistent, Synced, After, Going;
    assert Follows(worlds[i], steps[i], worlds[i + 1]);
    CommandSizes(worlds[i].0, worlds[i].1);
    var start, period := steps[i].era * WRAP + steps[i].tick, worlds[i].1.period[t];
    assert Follows(worlds[j - 1], steps[j - 1], worlds[j]);
    if i + 1 == j {
      StepGoing(worlds[i].0, worlds[i].1, steps[i], t, start, period);
    } else {
      RunGoing(worlds, steps, i, j - 1, t);
      NotAgain(worlds[j - 1].0, worlds[j - 1].1, steps[j - 1], t, start, period);
      StepGoing(worlds[j - 1].0, worlds[j - 1].1, steps[j - 1], t, start, period);
    }
  }

  lemma {:induction false} NotAgain(d: Daemon, g: Book, st: Step, t: Timer, start: nat, period: nat)
    requires Going(g, t, start, period) && Enabled(d, g, st)
    ensures !(st.StartStep? && st.t == t)
  {
  }

  lemma {:induction false} InstantIs(start: nat, period: nat, k: nat)
    ensures Instant(start, period, k) == start + k * period
  {
    if k > 0 {
      InstantIs(start, period, k - 1);
      assert k * period == (k - 1) * period + period;
    }
  }

  /**
   * A timer started at a tick of an era is called for the first time one period after that, and
   * then every period: whenever the daemon has caught up, callback k has been made if and only
   * if start + k * period is not in the future, and it was made for that instant.
   */
  lemma {:induction false} StartedExact(worlds: seq<(Daemon, Book)>, steps: seq<Step>, i: nat, j: nat, t: Timer, k: nat)
    requires Run(worlds, steps) && i < j <= |steps| && steps[i].StartStep? && steps[i].t == t
    requires CaughtUp(worlds[j].0) && k >= 1
    ensures t < |worlds[i].1.period|
    ensures var g, instant := worlds[j].1, steps[i].era * WRAP + steps[i].tick + k * worlds[i].1.period[t];
            && (k <= |Called(g.log, t)| <==> instant <= g.now)
            && (k <= |Called(g.log, t)| ==> Called(g.log, t)[k - 1] == instant)
  {
    hide Consistent, Follows, Called, Instant, CaughtUp;
    RunGoing(worlds, steps, i, j, t);
    RunExact(worlds, steps, j, t, k);
    InstantIs(worlds[j].1.start[t], worlds[j].1.period[t], k);
  }

  // ------------------------------------------------------------- a restart that is late

  /** A timer of the longest period, started at tick 6, waits in the current list for tick 5 of era 1. */
  ghost predicate Late0(d: Daemon, g: Book) {
    d == Daemon([Sleeper(0, 5)], [], [], 1) && g == Book(WRAP + 1, 1, [], [Near], [WRAP - 1], [6], [0], [WRAP + 5], [])
  }

  /** It was found and called at the switch, nearly a wrap later, and its restart is queued; time is `now`. */
  ghost predicate Late1(d: Daemon, g: Book, now: nat) {
    && d == Daemon([], [], [Command(0, 5)], now)
    && g == Book(2 * WRAP + now, 2, [1], [Queued], [WRAP - 1], [6], [1], [2 * WRAP + 4], [Call(0, WRAP + 5, 2 * WRAP)])
  }

  lemma {:induction false} LateLists(d: Daemon, g: Book)
    requires Late0(d, g)
    ensures ListOk(d.current, g.place, Near, g.next, g.era) && ListOk(d.overflow, g.place, Far, g.next, g.era + 1)
    ensures QueueOk(d.commands, g.issued, g.place, g.next, g.period)
  {
    assert Tasks(d.current) == [0] && Times(d.current) == [5];
    assert Tasks(d.overflow) == [] && Times(d.overflow) == [] && CommandTimers(d.commands) == [];
  }

  lemma {:induction false} LateTimer(g: Book, p: nat)
    requires p == WRAP - 1 && g.log == [] && g.fired == [0] && g.start == [6] && g.period == [p] && g.next == [WRAP + 5]
    requires |g.place| == 1
    ensures TimerOk(g, 0)
  {
    assert Instant(6, p, 1) == Instant(6, p, 0) + p;
  }

  lemma {:induction false} LateStart(d: Daemon, g: Book)
    requires Late0(d, g)
    ensures Consistent(d, g) && Synced(d, g)
  {
    hide ListOk, QueueOk, TimerOk;
    LateLists(d, g);
    LateTimer(g, WRAP - 1);
  }

  lemma {:induction false} LateRound(d: Daemon, g: Book, r: Daemon, h: Book)
    requires Late0(d, g.(now := WRAP + 1)) && g.now == 2 * WRAP && Shaped(d, g) && Late1(r, h, 0)
    ensures SwitchOne(d, g.period) == r.(last := 1) && SwitchLedger(d, g) == h.(era := 1) && Swapped(h.place) == h.place
  {
    assert Plus(5, WRAP - 1) == 4;
    assert d.current[1..] == [] && g.issued + [1] == [1];
    assert [Near][0 := Idle][0 := Queued] == [Queued] && [0 as nat][0 := 1] == [1];
    assert [WRAP + 5][0 := WRAP + 5 + (WRAP - 1)] == [2 * WRAP + 4];
  }

  lemma {:induction false} LateSwitch(d: Daemon, g: Book, r: Daemon, h: Book)
    requires Late0(d, g) && Consistent(d, g) && Late1(r, h, 0)
    ensures SampleOk(d, g, 0, 2 * WRAP) && Sample(d, g, 0, 2 * WRAP) == (r, h)
  {
    hide Consistent, SwitchOne, SwitchLedger, Swapped;
    var g1 := g.(now := 2 * WRAP);
    LaterInv(d, g, 2 * WRAP);
    ListSized(d, g1);
    HeadFits(d, g1);
    LateRound(d, g1, r, h);
    SwitchOneInv(d, g1);
    SwitchShrinks(d, g1);
    assert SwitchAll(d, g1, 0) == SwitchAll(SwitchOne(d, g1.period), SwitchLedger(d, g1), 0);
  }

  lemma {:induction false} LateObeyed(d: Daemon, g: Book)
    requires Late1(d, g, 10)
    ensures Shaped(d, g) && Sampled(d, g) && !ObeyedInTime(d, g)
    ensures var r, h := Obey(d, g.period), ObeyLedger(d, g);
            && r == Daemon([], [Sleeper(0, 4)], [], 10) && h.start == g.start && h.period == g.period && h.now == g.now
            && h.log == g.log
  {
    assert AddSleeper([], Sleeper(0, 4)) == [Sleeper(0, 4)];
  }

  lemma {:induction false} LateMissed(g: Book, p: nat)
    requires p == WRAP - 1 && g.log == [Call(0, WRAP + 5, 2 * WRAP)]
    ensures Instant(6, p, 2) == 2 * WRAP + 4 && |Called(g.log, 0)| == 1
  {
    assert Instant(6, p, 2) == Instant(6, p, 1) + p && Instant(6, p, 1) == Instant(6, p, 0) + p;
    assert g.log[..0] == [] && Called(g.log[..0], 0) == [];
  }

  /**
   * The daemon next runs nearly a wrap after its last sample, finds the timer at the switch
   * and queues its restart.  When it obeys that command the timer looks as if it had just
   * been started: the instant that has passed meanwhile is put off by a whole wrap.
   */
  lemma {:induction false} LateRestart(d0: Daemon, g0: Book)
    requires Late0(d0, g0)
    ensures Consistent(d0, g0) && Synced(d0, g0) && SampleOk(d0, g0, 0, 2 * WRAP)
    ensures var (d1, g1) := Sample(d0, g0, 0, 2 * WRAP);
            && SampleOk(d1, g1, 10, 2 * WRAP + 10)
            && var (d2, g2) := Sample(d1, g1, 10, 2 * WRAP + 10);
            && Shaped(d2, g2) && Sampled(d2, g2) && !ObeyedInTime(d2, g2)
            && var (d3, g3) := (Obey(d2, g2.period), ObeyLedger(d2, g2));
            && CaughtUp(d3) && |g3.start| == |g3.period| == 1
            && Instant(g3.start[0], g3.period[0], 2) <= g3.now && |Called(g3.log, 0)| == 1
  {
    LateStart(d0, g0);
    var d1, g1 := Daemon([], [], [Command(0, 5)], 0),
      Book(2 * WRAP, 2, [1], [Queued], [WRAP - 1], [6], [1], [2 * WRAP + 4], [Call(0, WRAP + 5, 2 * WRAP)]);
    LateSwitch(d0, g0, d1, g1);
    hide Consistent, SwitchAll, Obey, ObeyLedger, Called, Instant, Shaped, ObeyedInTime;
    var d2, g2 := d1.(last := 10), g1.(now := 2 * WRAP + 10);
    assert Sample(d1, g1, 10, 2 * WRAP + 10) == (d2, g2);
    LateObeyed(d2, g2);
    LateMissed(ObeyLedger(d2, g2), WRAP - 1);
  }

  // ---------------------------------------------------------------- the operations

  class TimerTask {
    const period: seq<nat>
    var current: seq<Sleeper>
    var overflow: seq<Sleeper>
    var commands: seq<Command>
    var last: nat
    ghost var g: Book

    ghost function St(): Daemon
      reads this
    {
      Daemon(current, overflow, commands, last)
    }

    ghost predicate Valid()
      reads this
    {
      Consistent(St(), g) && Synced(St(), g) && g.period == period
    }

    /** The callbacks made so far. */
    ghost function Log(): seq<Call>
      reads this
    {
      g.log
    }

    constructor (period: seq<nat>)
      requires forall t :: 0 <= t < |period| ==> 0 < period[t] < WRAP
      ensures Valid() && Log() == [] && this.period == period && commands == [] && current == [] && overflow == []
      ensures last == 0 && g == Blank(period)
    {
      this.period, current, overflow, commands, last := period, [], [], [], 0;
      g := Blank(period);
    }

    /** prvInsertTimerInActiveList, and a new start command if the timer has expired already. */
    method Place(t: Timer, command: nat, again: nat, now: nat) returns (expired: bool)
      requires t < |period| && 0 < period[t] < WRAP && command < WRAP && now < WRAP
      modifies this`current, this`overflow, this`commands
      ensures St() == Settle(old(St()), Judge(command, period[t], now), t, Plus(command, period[t]), again)
      ensures expired == (Judge(command, period[t], now) == Now)
    {
      expired := false;
      var expiry := Plus(command, period[t]);
      if expiry <= now {
        if Minus(now, command) >= period[t] {
          expired := true;
        } else {
          overflow := AddSleeper(overflow, Sleeper(t, expiry));
        }
      } else if now < command && expiry >= command {
        expired := true;
      } else {
        current := AddSleeper(current, Sleeper(t, expiry));
      }
      if expired {
        commands := commands + [Command(t, again)];
      }
    }

    /** prvProcessExpiredTimer: the head of the current list has expired. */
    method ProcessExpired() returns (t: Timer)
      requires Valid() && current != [] && current[0].value <= last
      modifies this
      ensures Valid() && t == old(current)[0].task && t < |old(g).next| && last == old(last) && g.now == old(g).now
      ensures Log() == old(Log()) + [Call(t, old(g).next[t], g.now)]
      ensures Shaped(old(St()), old(g)) && St() == Expire(old(St()), period, last)
      ensures g == ExpireLedger(old(St()), old(g))
    {
      hide Consistent, Judge, Settle;
      ghost var d0, g0 := St(), g;
      ExpireInv(d0, g0);
      HeadFits(d0, g0);
      t := current[0].task;
      var e := current[0].value;
      current := current[1..];
      var expired := Place(t, e, e, last);
      g := ExpireLedger(d0, g0);
      SettleLast(d0.(current := d0.current[1..]), Judge(e, period[t], last), t, Plus(e, period[t]), e);
    }

    /**
     * prvSwitchTimerLists: calls the timers left in the current list, again and again for
     * short periods, until the list is empty, and then exchanges the lists.
     */
    method SwitchLists(now: nat)
      requires Consistent(St(), g) && g.period == period && g.now == (g.era + 1) * WRAP + now && now < WRAP
      modifies this
      ensures Valid() && last == now && g.now == old(g).now && g.start == old(g).start
      ensures forall i :: 0 <= i < |old(current)| ==> old(current)[i].value < WRAP
      ensures (St(), g) == SwitchAll(old(St()), old(g), now)
      ensures |old(Log())| <= |Log()| && Log()[..|old(Log())|] == old(Log())
    {
      hide Consistent, SwitchOne, SwitchLedger, Swapped;
      ListSized(St(), g);
      while current != []
        invariant Consistent(St(), g) && g.period == period && g.era == old(g).era && g.now == old(g).now
        invariant g.start == old(g).start
        invariant forall i :: 0 <= i < |current| ==> current[i].value < WRAP
        invariant SwitchAll(St(), g, now) == SwitchAll(old(St()), old(g), now)
        invariant |old(Log())| <= |Log()| && Log()[..|old(Log())|] == old(Log())
        decreases Left(current)
      {
        ghost var d0, g0 := St(), g;
        SwitchOneInv(d0, g0);
        HeadFits(d0, g0);
        SwitchShrinks(d0, g0);
        SwitchKeeps(d0, g0);
        SwitchHead();
        g := SwitchLedger(d0, g0);
        ListSized(St(), g);
      }
      SwapInv(St(), g, now);
      current, overflow := overflow, current;
      last := now;
      g := g.(era := g.era + 1, place := Swapped(g.place));
    }

    /** One round of the loop of prvSwitchTimerLists. */
    method SwitchHead()
      requires current != [] && current[0].task < |period| && 0 < period[current[0].task] < WRAP
      requires current[0].value < WRAP
      modifies this`current, this`commands
      ensures St() == SwitchOne(old(St()), period)
    {
      var t, e := current[0].task, current[0].value;
      current := current[1..];
      var reload := Plus(e, period[t]);
      if reload > e {
        current := AddSleeper(current, Sleeper(t, reload));
      } else {
        commands := commands + [Command(t, e)];
      }
    }

    /** prvSampleTimeNow; `time` is the unbounded time, at most one wrap after the last sample. */
    method SampleTime(now: nat, ghost time: nat) returns (switched: bool)
      requires Valid() && SampleOk(St(), g, now, time)
      modifies this
      ensures Valid() && last == now && g.now == time && switched == (now < old(last)) && g.start == old(g).start
      ensures (St(), g) == Sample(old(St()), old(g), now, time)
      ensures |old(Log())| <= |Log()| && Log()[..|old(Log())|] == old(Log())
      ensures !switched ==> Log() == old(Log())
    {
      hide Consistent;
      LaterInv(St(), g, time);
      g := g.(now := time);
      switched := now < last;
      if switched {
        SwitchLists(now);
      } else {
        LastAny(St(), g, now);
        last := now;
      }
    }

    /** prvProcessReceivedCommands, for the start command at the head of the queue. */
    method ProcessCommand() returns (called: bool)
      requires Valid() && Sampled(St(), g)
      modifies this
      ensures Shaped(old(St()), old(g)) && (Valid() <==> ObeyedInTime(old(St()), old(g)))
      ensures last == old(last) && g.now == old(g).now
      ensures var t := old(commands)[0].timer;
              t < |old(g).next| && Log() == old(Log()) + if called then [Call(t, old(g).next[t], g.now)] else []
      ensures St() == Obey(old(St()), period) && g == ObeyLedger(old(St()), old(g))
    {
      hide Consistent, Judge, Settle;
      ghost var d0, g0 := St(), g;
      CommandFits(d0, g0);
      ObeyExact(d0, g0);
      var c := commands[0];
      commands := commands[1..];
      var expiry := Plus(c.time, period[c.timer]);
      called := Place(c.timer, c.time, expiry, last);
      g := ObeyLedger(d0, g0);
      SettleLast(d0.(commands := d0.commands[1..]), Judge(c.time, period[c.timer], last), c.timer, expiry, expiry);
    }

    /** xTimerStart: a start command for timer t, issued at tick `time` of the given era. */
    method Start(t: Timer, time: nat, ghost era: nat)
      requires Valid() && t < |period| && t < |g.place| && t < |g.fired| && g.place[t] == Idle && g.fired[t] == 0
      requires time < WRAP
      modifies this
      ensures Valid() && t < |g.start| && g.start[t] == era * WRAP + time && g.now == old(g).now && Log() == old(Log())
      ensures St() == old(St()).(commands := old(commands) + [Command(t, time)])
      ensures |old(g).place| == |old(g).period| == |old(g).start| == |old(g).fired| == |old(g).next|
      ensures g == Started(old(g), t, era, time)
    {
      hide Consistent;
      StartInv(St(), g, t, era, time);
      CommandSizes(St(), g);
      commands := commands + [Command(t, time)];
      g := Started(g, t, era, time);
    }
  }

  /** How the timer of the longest period gets to where LateRestart finds it. */
  ghost predicate Soon(d: Daemon, g: Book, place: Spot, issued: seq<nat>, now: nat) {
    g == Book(now, 0, issued, [place], [WRAP - 1], [6], [0], [WRAP + 5], []) && d.current == [] && d.last == now
  }

  lemma {:induction false} SoonStarted(g: Book)
    requires g == Blank([WRAP - 1])
    ensures |g.place| == |g.period| == |g.start| == |g.fired| == |g.next| == 1 && g.place[0] == Idle
            && g.fired[0] == 0
    ensures Started(g, 0, 0, 6) == Book(0, 0, [0], [Queued], [WRAP - 1], [6], [0], [WRAP + 5], [])
  {
    assert [Idle][0 := Queued] == [Queued];
  }

  lemma {:induction false} SameEra(d: Daemon, g: Book, now: nat, time: nat)
    requires Consistent(d, g) && SampleOk(d, g, now, time) && d.last <= now
    ensures Sample(d, g, now, time) == (d.(last := now), g.(now := time))
  {
    hide Consistent;
  }

  lemma {:induction false} SoonObeyed(d: Daemon, g: Book)
    requires Soon(d, g, Queued, [0], 6) && d.commands == [Command(0, 6)] && d.overflow == []
    ensures Shaped(d, g) && Sampled(d, g) && ObeyedInTime(d, g)
    ensures Soon(Obey(d, g.period), ObeyLedger(d, g), Far, [], 6)
    ensures Obey(d, g.period).commands == [] && Obey(d, g.period).overflow == [Sleeper(0, 5)]
  {
    assert AddSleeper([], Sleeper(0, 5)) == [Sleeper(0, 5)];
    assert Plus(6, WRAP - 1) == 5;
    assert [Queued][0 := Idle][0 := Far] == [Far];
  }

  lemma {:induction false} SoonSwitched(d: Daemon, g: Book)
    requires Soon(d, g, Far, [], 6) && d.commands == [] && d.overflow == [Sleeper(0, 5)] && Consistent(d, g)
    ensures SampleOk(d, g, 1, WRAP + 1)
    ensures Late0(Sample(d, g, 1, WRAP + 1).0, Sample(d, g, 1, WRAP + 1).1)
  {
    hide Consistent;
    LaterInv(d, g, WRAP + 1);
    assert Swapped([Far]) == [Near];
  }

  /**
   * The same from the creation of the daemon on: every tick count is sampled at most a wrap
   * after the one before, the second instant has passed, the daemon has nothing left to do, and
   * the callback was made once.
   */
  method MissedInstant() returns (w: TimerTask)
    ensures fresh(w) && CaughtUp(w.St()) && |w.g.start| == |w.g.period| == 1
    ensures Instant(w.g.start[0], w.g.period[0], 2) <= w.g.now && |Called(w.Log(), 0)| == 1
  {
    hide Consistent, SwitchAll, Obey, ObeyLedger, Called, Instant, Sample, Started, Blank, CaughtUp, Shaped, Sampled,
      ObeyedInTime, Settle, Judge;
    w := new TimerTask([WRAP - 1]);
    SoonStarted(w.g);
    w.Start(0, 6, 0);
    SameEra(w.St(), w.g, 6, 6);
    var switched := w.SampleTime(6, 6);
    SoonObeyed(w.St(), w.g);
    var called := w.ProcessCommand();
    SoonSwitched(w.St(), w.g);
    switched := w.SampleTime(1, WRAP + 1);
    LateRestart(w.St(), w.g);
    switched := w.SampleTime(0, 2 * WRAP);
    switched := w.SampleTime(10, 2 * WRAP + 10);
    called := w.ProcessCommand();
  }

  lemma {:induction false} HeadFits(d: Daemon, g: Book)
    requires Consistent(d, g) && d.current != []
    ensures Shaped(d, g) && d.current[0].task < |g.period| && 0 < g.period[d.current[0].task] < WRAP
    ensures d.current[0].value < WRAP && d.last < WRAP
    ensures d.current[0].task < |g.next|
  {
  }

  lemma {:induction false} CommandFits(d: Daemon, g: Book)
    requires Consistent(d, g) && d.commands != []
    ensures Shaped(d, g) && d.commands[0].timer < |g.period| && 0 < g.period[d.commands[0].timer] < WRAP
    ensures d.commands[0].time < WRAP && d.last < WRAP
    ensures d.commands[0].timer < |g.next|
  {
  }

  lemma {:induction false} CommandSizes(d: Daemon, g: Book)
    requires Consistent(d, g)
    ensures |g.place| == |g.period| == |g.start| == |g.fired| == |g.next| && d.last < WRAP
  {
  }

  lemma {:induction false} ListSized(d: Daemon, g: Book)
    requires Consistent(d, g)
    ensures forall i :: 0 <= i < |d.current| ==> d.current[i].value < WRAP
  {
  }

  lemma {:induction false} LastAny(d: Daemon, g: Book, last: nat)
    requires Consistent(d, g) && last < WRAP
    ensures Consistent(d.(last := last), g)
  {
  }

  lemma {:induction false} SettleLast(d: Daemon, v: Verdict, t: Timer, expiry: nat, again: nat)
    ensures Settle(d, v, t, expiry, again).last == d.last
  {
  }

  lemma {:induction false} SwitchKeeps(d: Daemon, g: Book)
    requires Shaped(d, g) && d.current != []
    ensures var r := SwitchLedger(d, g);
            r.period == g.period && r.era == g.era && r.now == g.now && r.start == g.start && |r.log| == |g.log| + 1
                && r.log[..|g.log|] == g.log
    ensures SwitchOne(d, g.period).overflow == d.overflow && SwitchOne(d, g.period).last == d.last
  {
  }
}
