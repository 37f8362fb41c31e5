/**
 * Block times and periodic delays on the wrapping tick count
 * (FreeRTOS/Source/tasks.c, xTaskCheckForTimeOut and vTaskDelayUntil).
 *
 * A moment in unbounded time is an era, counted by xNumOfOverflows, and a tick.
 */
module Timeouts {
  import opened Scheduler

  datatype Moment = Moment(era: nat, tick: nat) {
    predicate Ok() { tick < WRAP }
    function Abs(): nat { era * WRAP + tick }
  }

  class TimeOut {
    var overflowCount: nat
    var timeOnEntering: nat

    /** vTaskSetTimeOutState */
    constructor (now: Moment)
      ensures Since() == now
    {
      overflowCount, timeOnEntering := now.era, now.tick;
    }

    function Since(): Moment
      reads this
    {
      Moment(overflowCount, timeOnEntering)
    }

    /** xTaskCheckForTimeOut: has the block time run out?  If not, what is left of it? */
    method Check(now: Moment, ticks: nat) returns (expired: bool, left: nat)
      requires Since().Ok() && now.Ok() && ticks < WRAP
      modifies this
      ensures expired == Expired(old(Since()), now, ticks)
      ensures left == (if ticks == MAX_DELAY then ticks
                       else if WentRound(old(Since()), now) then ticks
                       else if expired then 0
                       else ticks - Minus(now.tick, old(timeOnEntering)))
      ensures Since() == if expired || ticks == MAX_DELAY then old(Since()) else now
    {
      var elapsed := Minus(now.tick, timeOnEntering);
      left := ticks;
      if ticks == MAX_DELAY {
        expired := false;
      } else if now.era != overflowCount && now.tick >= timeOnEntering {
        expired := true;
      } else if elapsed < ticks {
        left := ticks - elapsed;
        overflowCount, timeOnEntering := now.era, now.tick;
        expired := false;
      } else {
        left, expired := 0, true;
      }
    }
  }

  /** The tick count has come round to where it was, or past it. */
  predicate WentRound(since: Moment, now: Moment) {
    now.era != since.era && now.tick >= since.tick
  }

  /** What the code reports. */
  predicate Expired(since: Moment, now: Moment, ticks: nat)
    requires since.Ok() && now.Ok()
  {
    ticks != MAX_DELAY && (WentRound(since, now) || Minus(now.tick, since.tick) >= ticks)
  }

  /**
   * A wait without limit never runs out.  Of any other the report is right unless the count has
   * wrapped at least twice, stands below the entry tick and is, taken modulo the wrap, fewer
   * than `ticks` past it.
   */
  lemma {:induction false} ExpiredExact(since: Moment, now: Moment, ticks: nat)
    requires since.Ok() && now.Ok() && since.Abs() <= now.Abs() && ticks <= MAX_DELAY
    ensures ticks == MAX_DELAY ==> !Expired(since, now, ticks)
    ensures ticks < MAX_DELAY ==>
              (Expired(since, now, ticks) == (now.Abs() - since.Abs() >= ticks)
               <==> !(now.era >= since.era + 2 && now.tick < since.tick && Minus(now.tick, since.tick) < ticks))
    ensures ticks < MAX_DELAY && now.era <= since.era + 1 ==>
              Expired(since, now, ticks) == (now.Abs() - since.Abs() >= ticks)
  {
  }

  /** Nearly two wraps after tick 10 a wait of a little less than one is not seen to be over. */
  lemma {:induction false} ExpiryMissed()
    ensures var since, now, ticks := Moment(0, 10), Moment(2, 0), WRAP - 5;
            since.Ok() && now.Ok() && now.Abs() - since.Abs() >= ticks && !Expired(since, now, ticks)
  {
  }

  // --------------------------------------------------------------- many checks

  /** A wait of `total` ticks from `start`, `left` of which remain since the last check. */
  ghost predicate Waiting(start: nat, total: nat, since: Moment, left: nat) {
    since.Ok() && start <= since.Abs() && 0 < left < MAX_DELAY && since.Abs() - start + left == total
  }

  /** The checks are in order, and there is at most one wrap from one to the next. */
  ghost predicate Spaced(since: Moment, checks: seq<Moment>) {
    forall i :: 0 <= i < |checks| ==>
      var before := if i == 0 then since else checks[i - 1];
      checks[i].Ok() && before.Abs() <= checks[i].Abs() && checks[i].era <= before.era + 1
  }

  /**
   * A blocking call that checks again and again gives up at the first check at which the
   * whole time since its start has reached the wait it was given, and not before; one that
   * may wait without limit never does.
   */
  method CheckAll(t: TimeOut, checks: seq<Moment>, ticks: nat, ghost start: nat, ghost total: nat) returns (k: nat)
    requires ticks == MAX_DELAY || Waiting(start, total, t.Since(), ticks)
    requires t.Since().Ok() && Spaced(t.Since(), checks)
    modifies t
    ensures k <= |checks|
    ensures ticks == MAX_DELAY ==> k == |checks|
    ensures ticks != MAX_DELAY ==>
              && (forall i :: 0 <= i < k ==> checks[i].Abs() - start < total)
              && (k < |checks| ==> checks[k].Abs() - start >= total)
  {
    hide Waiting, Expired, WentRound, Minus, Spaced;
    k := 0;
    var left := ticks;
    while k < |checks|
      invariant 0 <= k <= |checks|
      invariant ticks == MAX_DELAY ==> left == ticks && t.Since() == old(t.Since())
      invariant ticks != MAX_DELAY ==>
                  && Waiting(start, total, t.Since(), left)
                  && t.Since() == (if k == 0 then old(t.Since()) else checks[k - 1])
                  && (forall i :: 0 <= i < k ==> checks[i].Abs() - start < total)
    {
      NextCheck(old(t.Since()), checks, k);
      if ticks == MAX_DELAY {
        NeverExpires(t.Since(), checks[k]);
      } else {
        CheckStep(start, total, t.Since(), checks[k], left);
      }
      var expired;
      expired, left := t.Check(checks[k], left);
      if expired {
        return;
      }
      k := k + 1;
    }
  }

  lemma {:induction false} NextCheck(since: Moment, checks: seq<Moment>, k: nat)
    requires Spaced(since, checks) && k < |checks|
    ensures var before := if k == 0 then since else checks[k - 1];
            checks[k].Ok() && before.Abs() <= checks[k].Abs() && checks[k].era <= before.era + 1
  {
  }

  lemma {:induction false} NeverExpires(since: Moment, now: Moment)
    requires since.Ok() && now.Ok()
    ensures !Expired(since, now, MAX_DELAY)
  {
  }

  lemma {:induction false} CheckStep(start: nat, total: nat, since: Moment, now: Moment, left: nat)
    requires Waiting(start, total, since, left) && now.Ok() && since.Abs() <= now.Abs() && now.era <= since.era + 1
    ensures since.Ok() && 0 < left < MAX_DELAY && start <= now.Abs()
    ensures Expired(since, now, left) <==> now.Abs() - start >= total
    ensures !Expired(since, now, left) ==> !WentRound(since, now) && Minus(now.tick, since.tick) < left
    ensures !Expired(since, now, left) ==> Waiting(start, total, now, left - Minus(now.tick, since.tick))
  {
    ExpiredExact(since, now, left);
  }

  // ------------------------------------------------------------ periodic delays

  datatype Delay = Delay(wake: nat, delays: bool, ticks: nat)

  /** The decision of vTaskDelayUntil: the next wake time, and whether and how long to sleep for it. */
  method DelayUntil(previous: nat, increment: nat, tick: nat) returns (d: Delay)
    requires previous < WRAP && tick < WRAP && 0 < increment < WRAP
    ensures d.wake == Plus(previous, increment)
    ensures d.delays == (Minus(tick, previous) < increment)
    ensures d.delays ==> d.ticks == increment - Minus(tick, previous) && 1 <= d.ticks < WRAP
  {
    var wake, delays := Plus(previous, increment), false;
    if tick < previous {
      if wake < previous && wake > tick {
        delays := true;
      }
    } else if wake < previous || wake > tick {
      delays := true;
    }
    d := Delay(wake, delays, Minus(wake, tick));
  }

  /**
   * With less than one wrap since the last wake time the task sleeps exactly if its next
   * wake time lies in the future, and for exactly the time until then.
   */
  lemma {:induction false} DelayExact(previous: Moment, increment: nat, now: Moment)
    requires previous.Ok() && now.Ok() && 0 < increment < WRAP && previous.Abs() <= now.Abs()
    ensures now.Abs() - previous.Abs() < WRAP ==>
              && (Minus(now.tick, previous.tick) < increment <==> previous.Abs() + increment > now.Abs())
              && (Minus(now.tick, previous.tick) < increment ==>
                    now.Abs() + (increment - Minus(now.tick, previous.tick)) == previous.Abs() + increment)
    ensures (Minus(now.tick, previous.tick) < increment <==> previous.Abs() + increment > now.Abs())
       <==> !(now.Abs() - previous.Abs() >= WRAP && Minus(now.tick, previous.tick) < increment)
    ensures Plus(previous.tick, increment) == Next(previous, increment).tick
    ensures Next(previous, increment).Ok() && Next(previous, increment).Abs() == previous.Abs() + increment
  {
  }

  /** A wrap and a tick after its last wake time a task still goes to sleep for nearly its whole period. */
  lemma {:induction false} WakeMissed()
    ensures var previous, now, increment := Moment(0, 10), Moment(1, 11), 100;
            && previous.Ok() && now.Ok() && previous.Abs() + increment <= now.Abs()
            && Minus(now.tick, previous.tick) < increment
  {
  }

  function Next(m: Moment, increment: nat): Moment
    requires m.Ok() && increment < WRAP
  {
    if m.tick + increment < WRAP then Moment(m.era, m.tick + increment)
      else Moment(m.era + 1, m.tick + increment - WRAP)
  }

  /** The moment after k periods. */
  function Grid(m: Moment, increment: nat, k: nat): (r: Moment)
    requires m.Ok() && increment < WRAP
    ensures r.Ok()
  {
    if k == 0 then m else Next(Grid(m, increment, k - 1), increment)
  }

  lemma {:induction false} OnGrid(m: Moment, increment: nat, k: nat)
    requires m.Ok() && increment < WRAP
    ensures Grid(m, increment, k).Abs() == m.Abs() + k * increment
  {
    if k > 0 {
      OnGrid(m, increment, k - 1);
      assert k * increment == (k - 1) * increment + increment;
    }
  }

  /**
   * A periodic task: however late each call comes (up to one wrap), wake time k is the start
   * plus k periods, and call k returns at that time or, if it is past already, at once.
   */
  method Periodic(start: Moment, increment: nat, calls: seq<Moment>) returns (wakes: seq<nat>, ghost returned: seq<nat>)
    requires start.Ok() && 0 < increment < WRAP
    requires forall i :: 0 <= i < |calls| ==>
             calls[i].Ok() && 0 <= calls[i].Abs() - Grid(start, increment, i).Abs() < WRAP
    ensures |wakes| == |returned| == |calls|
    ensures forall i :: 0 <= i < |calls| ==> wakes[i] == Grid(start, increment, i + 1).tick
    ensures forall i :: 0 <= i < |calls| ==> returned[i] == Later(calls[i].Abs(), Grid(start, increment, i + 1).Abs())
  {
    hide Grid, Next, Minus, Plus;
    wakes, returned := [], [];
    var previous, k := start.tick, 0;
    FirstOnGrid(start, increment);
    while k < |calls|
      invariant 0 <= k <= |calls| && |wakes| == |returned| == k && previous == Grid(start, increment, k).tick
      invariant forall i :: 0 <= i < k ==> wakes[i] == Grid(start, increment, i + 1).tick
      invariant forall i :: 0 <= i < k ==> returned[i] == Later(calls[i].Abs(), Grid(start, increment, i + 1).Abs())
    {
      GridStep(start, increment, k, calls[k]);
      var d := DelayUntil(previous, increment, calls[k].tick);
      wakes := wakes + [d.wake];
      returned := returned + [if d.delays then calls[k].Abs() + d.ticks else calls[k].Abs()];
      previous := d.wake;
      k := k + 1;
    }
  }

  function Later(a: nat, b: nat): nat {
    if a < b then b else a
  }

  lemma {:induction false} FirstOnGrid(m: Moment, increment: nat)
    requires m.Ok() && increment < WRAP
    ensures Grid(m, increment, 0) == m
  {
  }

  lemma {:induction false} GridStep(start: Moment, increment: nat, k: nat, now: Moment)
    requires start.Ok() && now.Ok() && 0 < increment < WRAP && 0 <= now.Abs() - Grid(start, increment, k).Abs() < WRAP
    ensures var previous, due := Grid(start, increment, k), Grid(start, increment, k + 1);
            && Plus(previous.tick, increment) == due.tick
            && (Minus(now.tick, previous.tick) < increment <==> due.Abs() > now.Abs())
            && (due.Abs() > now.Abs() ==> now.Abs() + (increment - Minus(now.tick, previous.tick)) == due.Abs())
  {
    DelayExact(Grid(start, increment, k), increment, now);
    assert Grid(start, increment, k + 1) == Next(Grid(start, increment, k), increment);
  }
}
