/**
 * Event groups (FreeRTOS/Source/event_groups.c).
 *
 * A waiting task's event list item carries, in one word, the bits it waits for and, in
 * the top byte, what it wants done with them.
 */
module EventGroups {
  import opened KernelList

  type Task = nat
  type Bits = bv32

  const CLEAR_ON_EXIT: Bits := 0x0100_0000
  const UNBLOCKED_BY_SET: Bits := 0x0200_0000
  const WAIT_FOR_ALL: Bits := 0x0400_0000
  const CONTROL: Bits := 0xff00_0000
  const IN_USE: Bits := 0x8000_0000

  datatype Waiter = Waiter(task: Task, value: Bits)

  /** The value of a list item: the bits, and the control bits for them. */
  function ItemValue(bits: Bits, clear: bool, all: bool): Bits {
    bits | (if clear then CLEAR_ON_EXIT else 0) | (if all then WAIT_FOR_ALL else 0) | IN_USE
  }

  function Wanted(value: Bits): Bits {
    value & !CONTROL
  }

  predicate Clears(value: Bits) {
    value & CLEAR_ON_EXIT != 0
  }

  predicate All(value: Bits) {
    value & WAIT_FOR_ALL != 0
  }

  /** prvTestWaitCondition */
  predicate Met(bits: Bits, wanted: Bits, all: bool) {
    if all then bits & wanted == wanted else bits & wanted != 0
  }

  predicate Satisfied(bits: Bits, value: Bits) {
    Met(bits, Wanted(value), All(value))
  }

  /** Packing and unpacking an item. */
  lemma {:induction false} ItemRoundTrip(bits: Bits, clear: bool, all: bool)
    requires Plain(bits)
    ensures Wanted(ItemValue(bits, clear, all)) == bits && Clears(ItemValue(bits, clear, all)) == clear
    ensures All(ItemValue(bits, clear, all)) == all
  {
  }

  lemma {:induction false} NoneLeft(b: Bits, c: Bits, w: Bits)
    requires b & w == 0
    ensures (b & !c) & w == 0
  {
  }

  lemma {:induction false} AllThere(b: Bits, c: Bits, w: Bits)
    requires (b & !c) & w == w
    ensures b & w == w
  {
  }

  /** Clearing bits never satisfies anybody. */
  lemma {:induction false} ClearUnmet(bits: Bits, cleared: Bits, wanted: Bits, all: bool)
    requires !Met(bits, wanted, all)
    ensures !Met(Without(bits, cleared), wanted, all)
  {
    if all {
      if (bits & !cleared) & wanted == wanted {
        AllThere(bits, cleared, wanted);
      }
    } else {
      NoneLeft(bits, cleared, wanted);
    }
  }

  /** The mark for a task woken by a set does not disturb the bits it is given. */
  lemma {:induction false} MarkedResult(bits: Bits)
    requires Plain(bits)
    ensures Answer(Or(bits, UNBLOCKED_BY_SET)) == bits && Marked(Or(bits, UNBLOCKED_BY_SET))
  {
  }

  lemma {:induction false} PlainBits(a: Bits, b: Bits)
    requires Plain(a) && Plain(b)
    ensures Plain(Or(a, b))
  {
  }

  lemma {:induction false} PlainAfterClear(a: Bits, c: Bits)
    requires Plain(a)
    ensures Plain(Without(a, c))
  {
  }

  function Or(a: Bits, b: Bits): Bits {
    a | b
  }

  function Without(a: Bits, b: Bits): Bits {
    a & !b
  }

  /** No control bits are set. */
  predicate Plain(a: Bits) {
    a & CONTROL == 0
  }

  // ----------------------------------------------------------- what a set of bits does

  /** The waiters that the bits do not satisfy, in their order. */
  function Kept(l: seq<Waiter>, bits: Bits): seq<Waiter> {
    if l == [] then []
    else Kept(l[..|l| - 1], bits) + if Satisfied(bits, l[|l| - 1].value) then [] else [l[|l| - 1]]
  }

  /** The waiters that the bits satisfy, in their order. */
  function Woken(l: seq<Waiter>, bits: Bits): seq<Waiter> {
    if l == [] then []
    else Woken(l[..|l| - 1], bits) + if Satisfied(bits, l[|l| - 1].value) then [l[|l| - 1]] else []
  }

  /** The bits that the satisfied waiters want cleared. */
  function ToClear(l: seq<Waiter>, bits: Bits): Bits {
    if l == [] then 0
    else
      var w := l[|l| - 1];
      Or(ToClear(l[..|l| - 1], bits), if Satisfied(bits, w.value) && Clears(w.value) then Wanted(w.value) else 0)
  }

  /** Everybody is either kept or woken, and judged on the same bits. */
  lemma {:induction false} Partition(l: seq<Waiter>, bits: Bits)
    ensures multiset(Kept(l, bits)) + multiset(Woken(l, bits)) == multiset(l)
    ensures forall w :: w in Kept(l, bits) <==> w in l && !Satisfied(bits, w.value)
    ensures forall w :: w in Woken(l, bits) <==> w in l && Satisfied(bits, w.value)
  {
    hide Satisfied;
    if l != [] {
      var n := |l| - 1;
      Partition(l[..n], bits);
      assert l == l[..n] + [l[n]];
    }
  }

  /** Some woken task waited for a bit of the mask and wants it cleared. */
  ghost predicate Asked(l: seq<Waiter>, bits: Bits, mask: Bits) {
    exists i :: 0 <= i < |l| && Asks(l[i].value, bits, mask)
  }

  predicate Asks(value: Bits, bits: Bits, mask: Bits) {
    Satisfied(bits, value) && Clears(value) && Hits(Wanted(value), mask)
  }

  /** A bit is cleared exactly if a woken task asked for it. */
  lemma {:induction false} ClearedExactly(l: seq<Waiter>, bits: Bits, mask: Bits)
    ensures Hits(ToClear(l, bits), mask) <==> Asked(l, bits, mask)
  {
    hide Satisfied, Clears, Wanted, Or, Hits;
    if l == [] {
      ZeroMask(mask);
    } else {
      var n, w := |l| - 1, l[|l| - 1];
      ClearedExactly(l[..n], bits, mask);
      ZeroMask(mask);
      OrMask(ToClear(l[..n], bits), if Satisfied(bits, w.value) && Clears(w.value) then Wanted(w.value) else 0, mask);
      AskedMore(l, bits, mask);
    }
  }

  lemma {:induction false} AskedMore(l: seq<Waiter>, bits: Bits, mask: Bits)
    requires l != []
    ensures Asked(l, bits, mask) <==> Asked(l[..|l| - 1], bits, mask) || Asks(l[|l| - 1].value, bits, mask)
  {
    hide Asks;
    var n := |l| - 1;
    assert forall i :: 0 <= i < n ==> l[..n][i] == l[i];
    if Asked(l[..n], bits, mask) {
      var i :| 0 <= i < n && Asks(l[..n][i].value, bits, mask);
      assert Asks(l[i].value, bits, mask);
    }
  }

  lemma {:induction false} NoControl()
    ensures Plain(0)
  {
  }

  lemma {:induction false} ZeroMask(mask: Bits)
    ensures !Hits(0, mask)
  {
  }

  predicate Hits(a: Bits, mask: Bits) {
    a & mask != 0
  }

  lemma {:induction false} NeitherHits(a: Bits, b: Bits, mask: Bits)
    requires !Hits(a, mask) && !Hits(b, mask)
    ensures !Hits(Or(a, b), mask)
  {
  }

  lemma {:induction false} LeftMisses(a: Bits, b: Bits, mask: Bits)
    requires !Hits(Or(a, b), mask)
    ensures !Hits(a, mask)
  {
  }

  lemma {:induction false} RightMisses(a: Bits, b: Bits, mask: Bits)
    requires !Hits(Or(a, b), mask)
    ensures !Hits(b, mask)
  {
  }

  lemma {:induction false} OrMask(a: Bits, b: Bits, mask: Bits)
    ensures Hits(Or(a, b), mask) <==> Hits(a, mask) || Hits(b, mask)
  {
    hide Hits, Or;
    if !Hits(a, mask) && !Hits(b, mask) {
      NeitherHits(a, b, mask);
    }
    if !Hits(Or(a, b), mask) {
      LeftMisses(a, b, mask);
      RightMisses(a, b, mask);
    }
  }

  // ------------------------------------------------------------------ bit by bit

  /** The mask has exactly one bit. */
  predicate OneBit(mask: Bits) {
    mask != 0 && mask & (mask - 1) == 0
  }

  /** What a task waits for, bit by bit: that all of the wanted bits are there, or that one of them is. */
  ghost predicate Has(bits: Bits, wanted: Bits, all: bool) {
    if all then forall mask :: OneBit(mask) && Hits(wanted, mask) ==> Hits(bits, mask)
    else exists mask :: OneBit(mask) && Hits(wanted, mask) && Hits(bits, mask)
  }

  function Lowest(x: Bits): Bits {
    x & (!x + 1)
  }

  lemma {:induction false} LowestBit(x: Bits)
    requires x != 0
    ensures OneBit(Lowest(x)) && x & Lowest(x) == Lowest(x)
  {
  }

  /** A single bit is there or not. */
  lemma {:induction false} BitOrNot(x: Bits, mask: Bits)
    requires OneBit(mask)
    ensures x & mask == (if Hits(x, mask) then mask else 0)
  {
  }

  function Common(a: Bits, b: Bits): Bits {
    a & b
  }

  lemma {:induction false} CommonMask(a: Bits, b: Bits, mask: Bits)
    requires a & mask == mask || a & mask == 0
    requires b & mask == mask || b & mask == 0
    ensures Common(a, b) & mask == if a & mask == mask then b & mask else 0
  {
  }

  lemma {:induction false} WithoutParts(a: Bits, b: Bits, mask: Bits)
    requires a & mask == mask || a & mask == 0
    requires b & mask == mask || b & mask == 0
    ensures Without(a, b) & mask == if b & mask == mask then 0 else a & mask
  {
  }

  /** A single bit is left exactly if it was there and is not taken away. */
  lemma {:induction false} WithoutMask(a: Bits, b: Bits, mask: Bits)
    requires OneBit(mask)
    ensures Hits(Without(a, b), mask) <==> Hits(a, mask) && !Hits(b, mask)
  {
    hide Without;
    BitOrNot(a, mask);
    BitOrNot(b, mask);
    WithoutParts(a, b, mask);
  }

  lemma {:induction false} CommonHits(a: Bits, b: Bits, mask: Bits)
    requires OneBit(mask)
    ensures Hits(Common(a, b), mask) <==> Hits(a, mask) && Hits(b, mask)
  {
    hide Common;
    BitOrNot(a, mask);
    BitOrNot(b, mask);
    CommonMask(a, b, mask);
  }

  /** What is not zero has a bit. */
  lemma {:induction false} SomeBit(x: Bits) returns (mask: Bits)
    requires x != 0
    ensures OneBit(mask) && Hits(x, mask)
  {
    mask := Lowest(x);
    LowestBit(x);
  }

  lemma {:induction false} NoneMissing(bits: Bits, wanted: Bits)
    requires bits & wanted == wanted
    ensures wanted & !bits == 0
  {
  }

  lemma {:induction false} AllPresent(bits: Bits, wanted: Bits)
    requires wanted & !bits == 0
    ensures bits & wanted == wanted
  {
  }

  lemma {:induction false} MetMeans(bits: Bits, wanted: Bits)
    ensures Met(bits, wanted, true) <==> Without(wanted, bits) == 0
    ensures Met(bits, wanted, false) <==> Common(bits, wanted) != 0
  {
    if Met(bits, wanted, true) {
      NoneMissing(bits, wanted);
    }
    if Without(wanted, bits) == 0 {
      AllPresent(bits, wanted);
    }
  }

  /** The test of the code is the condition the task waits for. */
  lemma {:induction false} MetExact(bits: Bits, wanted: Bits, all: bool)
    ensures Met(bits, wanted, all) <==> Has(bits, wanted, all)
  {
    hide OneBit, Hits, Met, Without, Common;
    MetMeans(bits, wanted);
    ZeroHits();
    if all {
      forall mask | OneBit(mask)
        ensures Hits(Without(wanted, bits), mask) <==> Hits(wanted, mask) && !Hits(bits, mask)
      {
        WithoutMask(wanted, bits, mask);
      }
      if Without(wanted, bits) != 0 {
        var mask := SomeBit(Without(wanted, bits));
      }
    } else {
      forall mask | OneBit(mask)
        ensures Hits(Common(bits, wanted), mask) <==> Hits(bits, mask) && Hits(wanted, mask)
      {
        CommonHits(bits, wanted, mask);
      }
      if Common(bits, wanted) != 0 {
        var mask := SomeBit(Common(bits, wanted));
      }
    }
  }

  lemma {:induction false} ZeroHits()
    ensures forall mask :: !Hits(0, mask)
  {
  }

  // ------------------------------------------------------------------- the calls

  /** The bits, the waiting tasks, what tasks that left the list were handed, and what each task last asked for. */
  datatype Group = Group(bits: Bits, waiters: seq<Waiter>, results: map<Task, Bits>, asked: map<Task, Bits>)

  function TasksOf(l: seq<Waiter>): set<Task> {
    set w | w in l :: w.task
  }

  /** The woken tasks are handed the bits, marked as set. */
  function HandOut(before: map<Task, Bits>, woken: seq<Waiter>, bits: Bits): map<Task, Bits> {
    map t | t in before.Keys + TasksOf(woken) :: if t in TasksOf(woken) then Or(bits, UNBLOCKED_BY_SET) else before[t]
  }

  /** xEventGroupSetBits */
  function AfterSet(s: Group, more: Bits): Group {
    var b := Or(s.bits, more);
    Group(Without(b, ToClear(s.waiters, b)), Kept(s.waiters, b), HandOut(s.results, Woken(s.waiters, b), b), s.asked)
  }

  /** xEventGroupClearBits */
  function AfterClear(s: Group, gone: Bits): Group {
    s.(bits := Without(s.bits, gone))
  }

  /** vTaskPlaceOnUnorderedEventList: the item takes the place of what the task was handed last. */
  function Join(s: Group, t: Task, wanted: Bits, clear: bool, all: bool): Group {
    var value := ItemValue(wanted, clear, all);
    s.(waiters := s.waiters + [Waiter(t, value)], results := s.results - {t}, asked := s.asked[t := value])
  }

  /** xEventGroupWaitBits, up to the point where the task has its answer or is blocked. */
  function AfterWait(s: Group, t: Task, wanted: Bits, clear: bool, all: bool, ticks: nat): Group {
    if Met(s.bits, wanted, all) then (if clear then AfterClear(s, wanted) else s)
    else if ticks != 0 then Join(s, t, wanted, clear, all) else s
  }

  /** xEventGroupSync, up to the point where the task has its answer or is blocked. */
  function AfterSync(s: Group, t: Task, more: Bits, wanted: Bits, ticks: nat): Group {
    var r := AfterSet(s, more);
    if Met(Or(s.bits, more), wanted, true) then AfterClear(r, wanted)
    else if ticks != 0 then Join(r, t, wanted, true, true) else r
  }

  /** The tick interrupt takes a task whose time is up off the list. */
  function AfterExpire(s: Group, k: nat): Group
    requires k < |s.waiters|
  {
    s.(waiters := RemoveAt(s.waiters, k), results := s.results[s.waiters[k].task := s.waiters[k].value])
  }

  /** The end of a wait: a task whose time is up looks once more. */
  function AfterFinish(s: Group, t: Task): Group
    requires t in s.results && t in s.asked
  {
    var s1, v := s.(results := s.results - {t}), s.asked[t];
    if !Marked(s.results[t]) && Clears(v) && Satisfied(s.bits, v) then AfterClear(s1, Wanted(v)) else s1
  }

  /** What the call returns at the end of a wait. */
  function Returned(s: Group, t: Task): Bits
    requires t in s.results
  {
    if Marked(s.results[t]) then Answer(s.results[t]) else s.bits
  }

  /** Nobody waits for what is already there, and whoever was woken was told bits that it asked for. */
  ghost predicate GroupOk(s: Group) {
    Plain(s.bits) && Unmet(s.waiters, s.bits) && Told(s.waiters, s.asked, s.results)
  }

  lemma {:induction false} HandedOut(before: map<Task, Bits>, results: map<Task, Bits>, woken: seq<Waiter>, bits: Bits)
    ensures Delivered(before, results, woken, bits) <==> results == HandOut(before, woken, bits)
  {
    hide Or;
    assert forall t :: HasTask(woken, t) <==> t in TasksOf(woken) by {
      forall t
        ensures HasTask(woken, t) <==> t in TasksOf(woken)
      {
        if t in TasksOf(woken) {
          var w :| w in woken && w.task == t;
        }
      }
    }
    var h := HandOut(before, woken, bits);
    if Delivered(before, results, woken, bits) {
      forall t | t in TasksOf(woken)
        ensures t in results && results[t] == Or(bits, UNBLOCKED_BY_SET)
      {
        var i :| 0 <= i < |woken| && woken[i].task == t;
      }
      assert results.Keys == h.Keys;
    }
  }

  lemma {:induction false} SetOk(s: Group, more: Bits)
    requires GroupOk(s) && Plain(more)
    ensures GroupOk(AfterSet(s, more))
  {
    hide Or, Without, Plain, Told, Unmet, Kept, Woken, ToClear, HandOut;
    var b := Or(s.bits, more);
    PlainBits(s.bits, more);
    HandedOut(s.results, HandOut(s.results, Woken(s.waiters, b), b), Woken(s.waiters, b), b);
    SetTold(s.waiters, s.asked, s.results, HandOut(s.results, Woken(s.waiters, b), b), b);
    KeptUnmet(s.waiters, b);
    UnmetAfterClear(Kept(s.waiters, b), b, ToClear(s.waiters, b));
  }

  lemma {:induction false} ClearOk(s: Group, gone: Bits)
    requires GroupOk(s)
    ensures GroupOk(AfterClear(s, gone))
  {
    hide Without, Plain, Told, Unmet;
    UnmetAfterClear(s.waiters, s.bits, gone);
  }

  lemma {:induction false} JoinOk(s: Group, t: Task, wanted: Bits, clear: bool, all: bool)
    requires GroupOk(s) && Plain(wanted) && !HasTask(s.waiters, t) && !Met(s.bits, wanted, all)
    ensures GroupOk(Join(s, t, wanted, clear, all))
  {
    hide Plain, Told, Unmet, Met, ItemValue, HasTask;
    UnmetMore(s.waiters, s.bits, t, wanted, clear, all);
    ToldMore(s.waiters, s.asked, s.results, t, wanted, clear, all);
  }

  lemma {:induction false} WaitOk(s: Group, t: Task, wanted: Bits, clear: bool, all: bool, ticks: nat)
    requires GroupOk(s) && Plain(wanted) && !HasTask(s.waiters, t)
    ensures GroupOk(AfterWait(s, t, wanted, clear, all, ticks))
  {
    hide GroupOk, Met, Plain, HasTask, AfterClear, Join;
    if Met(s.bits, wanted, all) {
      ClearOk(s, wanted);
    } else {
      JoinOk(s, t, wanted, clear, all);
    }
  }

  lemma {:induction false} SyncOk(s: Group, t: Task, more: Bits, wanted: Bits, ticks: nat)
    requires GroupOk(s) && Plain(more) && Plain(wanted) && !HasTask(s.waiters, t)
    ensures GroupOk(AfterSync(s, t, more, wanted, ticks))
  {
    hide GroupOk, Met, Plain, HasTask, AfterClear, Join, Or, Without, Kept, Woken, ToClear, HandOut;
    var r, b := AfterSet(s, more), Or(s.bits, more);
    SetOk(s, more);
    if Met(b, wanted, true) {
      ClearOk(r, wanted);
    } else {
      StillUnmet(b, ToClear(s.waiters, b), wanted);
      NotKept(s.waiters, b, t);
      JoinOk(r, t, wanted, true, true);
    }
  }

  lemma {:induction false} ExpireOk(s: Group, k: nat)
    requires GroupOk(s) && k < |s.waiters|
    ensures GroupOk(AfterExpire(s, k)) && !Marked(AfterExpire(s, k).results[s.waiters[k].task])
  {
    hide Plain, Told, Unmet, Marked, RemoveAt;
    UnmetFewer(s.waiters, s.bits, k);
    ToldFewer(s.waiters, s.asked, s.results, k);
  }

  lemma {:induction false} FinishOk(s: Group, t: Task)
    requires GroupOk(s) && t in s.results
    ensures t in s.asked && GroupOk(AfterFinish(s, t))
    ensures Marked(s.results[t]) ==> Satisfied(Returned(s, t), s.asked[t])
  {
    hide Plain, Unmet, Marked, Satisfied, Answer, Clears, Wanted, OnList, AfterClear;
    var s1 := s.(results := s.results - {t});
    ToldLess(s.waiters, s.asked, s.results, t);
    ClearOk(s1, Wanted(s.asked[t]));
  }

  lemma {:induction false} OkBits(s: Group)
    requires GroupOk(s)
    ensures Plain(s.bits)
  {
  }

  lemma {:induction false} OkPlain(s: Group, more: Bits)
    requires GroupOk(s) && Plain(more)
    ensures Plain(s.bits) && Plain(Or(s.bits, more))
  {
    PlainBits(s.bits, more);
  }

  lemma {:induction false} ToldLess(l: seq<Waiter>, asked: map<Task, Bits>, results: map<Task, Bits>, t: Task)
    requires Told(l, asked, results)
    ensures Told(l, asked, results - {t})
  {
    hide Marked, Satisfied, Answer;
    assert forall i :: 0 <= i < |l| ==> OnList(l[i], asked, results);
  }

  // ----------------------------------------------------- what the calls do, bit by bit

  /**
   * A set leaves a bit set if and only if it was set, or is now, and no task that the set woke
   * asked to have it cleared; it wakes exactly the tasks whose condition holds.
   */
  lemma {:induction false} SetExact(s: Group, more: Bits, mask: Bits)
    requires OneBit(mask)
    ensures var r, b := AfterSet(s, more), Or(s.bits, more);
            && (Hits(r.bits, mask) <==> (Hits(s.bits, mask) || Hits(more, mask)) && !Asked(s.waiters, b, mask))
            && (forall w :: w in r.waiters <==> w in s.waiters && !Has(b, Wanted(w.value), All(w.value)))
            && (forall w :: w in s.waiters && Has(b, Wanted(w.value), All(w.value)) ==>
                  w.task in r.results && r.results[w.task] == Or(b, UNBLOCKED_BY_SET))
            && r.asked == s.asked
  {
    hide Or, Without, Hits, OneBit, Kept, Woken, ToClear, Has, Met, Wanted, All;
    var b := Or(s.bits, more);
    WithoutMask(b, ToClear(s.waiters, b), mask);
    OrMask(s.bits, more, mask);
    ClearedExactly(s.waiters, b, mask);
    Partition(s.waiters, b);
    forall w: Waiter
      ensures Satisfied(b, w.value) <==> Has(b, Wanted(w.value), All(w.value))
    {
      MetExact(b, Wanted(w.value), All(w.value));
    }
  }

  /** Clearing takes away exactly the given bits. */
  lemma {:induction false} ClearExact(s: Group, gone: Bits, mask: Bits)
    requires OneBit(mask)
    ensures AfterClear(s, gone) == s.(bits := AfterClear(s, gone).bits)
    ensures Hits(AfterClear(s, gone).bits, mask) <==> Hits(s.bits, mask) && !Hits(gone, mask)
  {
    hide Without, Hits, OneBit;
    WithoutMask(s.bits, gone, mask);
  }

  /** The task has come to the end of the list, with what it asked for. */
  ghost predicate Joined(s: Group, r: Group, t: Task, wanted: Bits, clear: bool, all: bool) {
    && |r.waiters| == |s.waiters| + 1 && r.waiters[..|s.waiters|] == s.waiters
    && var w := r.waiters[|s.waiters|];
       && w.task == t && Wanted(w.value) == wanted && Clears(w.value) == clear && All(w.value) == all
       && t in r.asked && r.asked[t] == w.value
  }

  /**
   * A wait whose condition holds clears exactly the wanted bits, if it is to clear, and does
   * nothing else; one whose condition does not hold changes no bit and joins the list, unless
   * it may not block.
   */
  lemma {:induction false} WaitExact(s: Group, t: Task, wanted: Bits, clear: bool, all: bool, ticks: nat, mask: Bits)
    requires Plain(wanted) && OneBit(mask)
    ensures var r := AfterWait(s, t, wanted, clear, all, ticks);
            if Has(s.bits, wanted, all) then
              && r == s.(bits := r.bits)
              && (Hits(r.bits, mask) <==> Hits(s.bits, mask) && !(clear && Hits(wanted, mask)))
            else r.bits == s.bits && if ticks == 0 then r == s else Joined(s, r, t, wanted, clear, all)
  {
    hide Without, Hits, OneBit, Has, Met, Wanted, All, Clears, ItemValue, Plain;
    MetExact(s.bits, wanted, all);
    WithoutMask(s.bits, wanted, mask);
    ItemRoundTrip(wanted, clear, all);
  }

  /**
   * A rendezvous sets its bits as a set does; if then all wanted bits are there it clears
   * exactly those as well, and otherwise it joins the list, unless it may not block.
   */
  lemma {:induction false} SyncExact(s: Group, t: Task, more: Bits, wanted: Bits, ticks: nat, mask: Bits)
    requires Plain(wanted) && OneBit(mask)
    ensures var r, b := AfterSync(s, t, more, wanted, ticks), AfterSet(s, more);
            if Has(Or(s.bits, more), wanted, true) then
              r == b.(bits := r.bits) && (Hits(r.bits, mask) <==> Hits(b.bits, mask) && !Hits(wanted, mask))
            else r.bits == b.bits && if ticks == 0 then r == b else Joined(b, r, t, wanted, true, true)
  {
    hide Without, Hits, OneBit, Has, Met, Wanted, All, Clears, ItemValue, Plain, AfterSet, Or;
    MetExact(Or(s.bits, more), wanted, true);
    WithoutMask(AfterSet(s, more).bits, wanted, mask);
    ItemRoundTrip(wanted, true, true);
  }

  /**
   * The end of a wait changes bits only if the task's time had run out, its condition holds now
   * after all, and it asked to have its bits cleared; then it clears exactly those.
   */
  lemma {:induction false} FinishExact(s: Group, t: Task, wanted: Bits, clear: bool, all: bool, mask: Bits)
    requires t in s.results && t in s.asked && s.asked[t] == ItemValue(wanted, clear, all) && Plain(wanted)
    requires OneBit(mask)
    ensures var r := AfterFinish(s, t);
            && r == s.(bits := r.bits, results := s.results - {t})
            && (Hits(r.bits, mask) <==>
                  && Hits(s.bits, mask)
                  && !(!Marked(s.results[t]) && clear && Has(s.bits, wanted, all) && Hits(wanted, mask)))
  {
    hide Without, Hits, OneBit, Has, Met, Wanted, All, Clears, ItemValue, Plain, Marked;
    MetExact(s.bits, wanted, all);
    WithoutMask(s.bits, wanted, mask);
    ItemRoundTrip(wanted, clear, all);
  }

  // ------------------------------------------------------------------- the group

  class EventGroup {
    var bits: Bits
    var waiters: seq<Waiter>
    /** The event list item values of the tasks that have left the list, for them to read. */
    var results: map<Task, Bits>

    /** What each task last waited for, as the value of its list item. */
    ghost var asked: map<Task, Bits>

    ghost function St(): Group
      reads this
    {
      Group(bits, waiters, results, asked)
    }

    ghost predicate Valid()
      reads this
    {
      GroupOk(St())
    }

    constructor ()
      ensures Valid() && St() == Group(0, [], map[], map[])
    {
      bits, waiters, results, asked := 0, [], map[], map[];
      NoControl();
    }

    /**
     * xEventGroupSetBits: walks the list once, judges every task on the bits with the new
     * ones set, and only then clears what the woken tasks asked to have cleared.
     */
    method SetBits(more: Bits) returns (after: Bits)
      requires Valid() && Plain(more)
      modifies this
      ensures Valid() && St() == AfterSet(old(St()), more) && after == bits
    {
      hide Or, Without, Plain, GroupOk, Walked, Satisfied, Clears, Wanted, Kept, Woken, ToClear, HandOut, RemoveAt;
      SetOk(St(), more);
      OkPlain(St(), more);
      bits := Or(bits, more);
      ghost var all, before := waiters, results;
      var clear: Bits := 0;
      var i := 0;
      ghost var seen := 0;
      WalkStart(all, bits, results);
      while i < |waiters|
        invariant bits == Or(old(bits), more) && Walked(all, seen, waiters, i, bits, clear, before, results)
        invariant i <= |waiters| && seen <= |all| && asked == old(asked)
        decreases |all| - seen
      {
        WalkStep(all, seen, waiters, i, bits, clear, before, results);
        var w := waiters[i];
        if Satisfied(bits, w.value) {
          if Clears(w.value) {
            clear := Or(clear, Wanted(w.value));
          }
          results := results[w.task := Or(bits, UNBLOCKED_BY_SET)];
          waiters := RemoveAt(waiters, i);
        } else {
          i := i + 1;
        }
        seen := seen + 1;
      }
      WalkEnd(all, seen, waiters, i, bits, clear, before, results);
      HandedOut(before, results, Woken(all, bits), bits);
      bits := Without(bits, clear);
      after := bits;
    }

    /** xEventGroupClearBits */
    method ClearBits(gone: Bits) returns (before: Bits)
      requires Valid()
      modifies this`bits
      ensures Valid() && St() == AfterClear(old(St()), gone) && before == old(bits)
    {
      hide Without, GroupOk;
      ClearOk(St(), gone);
      before := bits;
      bits := Without(bits, gone);
    }

    /** Joins the list. */
    method Block(t: Task, wanted: Bits, clear: bool, all: bool)
      modifies this`waiters, this`results, this`asked
      ensures St() == Join(old(St()), t, wanted, clear, all)
    {
      hide ItemValue;
      var value := ItemValue(wanted, clear, all);
      waiters := waiters + [Waiter(t, value)];
      results := results - {t};
      asked := asked[t := value];
    }

    /** xEventGroupWaitBits, up to the point where the task has its answer or is blocked. */
    method WaitBits(t: Task, wanted: Bits, clear: bool, all: bool, ticks: nat) returns (blocked: bool, bits0: Bits)
      requires Valid() && Plain(wanted) && wanted != 0 && !HasTask(waiters, t)
      modifies this
      ensures Valid() && St() == AfterWait(old(St()), t, wanted, clear, all, ticks) && bits0 == old(bits)
      ensures blocked == (!Met(old(bits), wanted, all) && ticks != 0)
    {
      hide Without, GroupOk, Met, Join, Plain;
      WaitOk(St(), t, wanted, clear, all, ticks);
      bits0, blocked := bits, false;
      if Met(bits, wanted, all) {
        if clear {
          bits := Without(bits, wanted);
        }
      } else if ticks != 0 {
        Block(t, wanted, clear, all);
        blocked := true;
      }
    }

    /** xEventGroupSync, up to the point where the task has its answer or is blocked. */
    method Sync(t: Task, more: Bits, wanted: Bits, ticks: nat) returns (blocked: bool, answer: Bits)
      requires Valid() && Plain(more) && Plain(wanted) && wanted != 0 && !HasTask(waiters, t)
      modifies this
      ensures Valid() && St() == AfterSync(old(St()), t, more, wanted, ticks)
      ensures blocked == (!Met(Or(old(bits), more), wanted, true) && ticks != 0)
      ensures !blocked ==> answer == if Met(Or(old(bits), more), wanted, true) then Or(old(bits), more) else bits
    {
      hide Without, GroupOk, Met, Join, Plain, Or, AfterSet;
      SyncOk(St(), t, more, wanted, ticks);
      var original := bits;
      var after := SetBits(more);
      blocked, answer := false, 0;
      if Met(Or(original, more), wanted, true) {
        answer := Or(original, more);
        bits := Without(bits, wanted);
      } else if ticks != 0 {
        Block(t, wanted, true, true);
        blocked := true;
      } else {
        answer := bits;
      }
    }

    /** A task whose time is up leaves the list. */
    method TimeOut(k: nat)
      requires Valid() && k < |waiters|
      modifies this
      ensures Valid() && St() == AfterExpire(old(St()), k) && !Marked(results[old(waiters)[k].task])
    {
      hide GroupOk, Marked, RemoveAt;
      ExpireOk(St(), k);
      results := results[waiters[k].task := waiters[k].value];
      waiters := RemoveAt(waiters, k);
    }

    /** The end of a wait: what the call returns, once the task runs again. */
    method FinishWait(t: Task, wanted: Bits, clear: bool, all: bool) returns (answer: Bits, timedOut: bool)
      requires Valid() && t in results && t in asked && asked[t] == ItemValue(wanted, clear, all) && Plain(wanted)
      modifies this`bits, this`results
      ensures Valid() && St() == AfterFinish(old(St()), t) && answer == Returned(old(St()), t)
      ensures timedOut == !Marked(old(results)[t]) && (!timedOut ==> Met(answer, wanted, all))
    {
      hide Without, GroupOk, Met, Plain, Marked, Clears, Wanted, All, ItemValue, Answer;
      FinishOk(St(), t);
      OkBits(St());
      ItemRoundTrip(wanted, clear, all);
      var value := results[t];
      results := results - {t};
      timedOut := !Marked(value);
      answer := if timedOut then bits else value;
      if timedOut && Met(answer, wanted, all) && clear {
        bits := Without(bits, wanted);
      }
      PlainAnswer(answer);
      answer := Answer(answer);
    }
  }

  /** The mark of a value that was handed out by a set, and the bits in it. */
  predicate Marked(value: Bits) {
    value & UNBLOCKED_BY_SET != 0
  }

  function Answer(value: Bits): Bits {
    value & !CONTROL
  }

  /**
   * A waiting task is on the list once, with what it asked for and without the mark; what a
   * task that left the list has been handed satisfies what it asked for, if it is marked.
   */
  ghost predicate Told(l: seq<Waiter>, asked: map<Task, Bits>, results: map<Task, Bits>) {
    && (forall i :: 0 <= i < |l| ==> OnList(l[i], asked, results))
    && (forall i, j :: 0 <= i < j < |l| ==> l[i].task != l[j].task)
    && (forall t :: t in results ==> t in asked && (Marked(results[t]) ==> Satisfied(Answer(results[t]), asked[t])))
  }

  ghost predicate OnList(w: Waiter, asked: map<Task, Bits>, results: map<Task, Bits>) {
    w.task in asked && asked[w.task] == w.value && !Marked(w.value) && w.task !in results
  }

  lemma {:induction false} KeptOnce(l: seq<Waiter>, bits: Bits)
    requires forall i, j :: 0 <= i < j < |l| ==> l[i].task != l[j].task
    ensures forall i, j :: 0 <= i < j < |Kept(l, bits)| ==> Kept(l, bits)[i].task != Kept(l, bits)[j].task
  {
    hide Satisfied;
    if l != [] {
      var n := |l| - 1;
      KeptOnce(l[..n], bits);
      Partition(l[..n], bits);
      var k := Kept(l[..n], bits);
      forall i | 0 <= i < |k|
        ensures k[i].task != l[n].task
      {
        assert k[i] in k && k[i] in l[..n];
      }
    }
  }

  lemma {:induction false} NotKept(l: seq<Waiter>, bits: Bits, t: Task)
    requires !HasTask(l, t)
    ensures !HasTask(Kept(l, bits), t)
  {
    hide Satisfied;
    var k := Kept(l, bits);
    Partition(l, bits);
    forall i | 0 <= i < |k|
      ensures k[i].task != t
    {
      assert k[i] in k && k[i] in l;
    }
  }

  lemma {:induction false} SetTold(l: seq<Waiter>, asked: map<Task, Bits>, before: map<Task, Bits>,
                                   results: map<Task, Bits>,
                                   bits: Bits)
    requires Plain(bits) && Told(l, asked, before) && Delivered(before, results, Woken(l, bits), bits)
    ensures Told(Kept(l, bits), asked, results)
  {
    KeptOnce(l, bits);
    hide Satisfied, Marked, Answer, Plain, Or, Kept, Woken, OnList, Delivered;
    var kept := Kept(l, bits);
    forall i | 0 <= i < |kept|
      ensures OnList(kept[i], asked, results)
    {
      KeptOnList(l, asked, before, results, bits, i);
    }
    forall t | t in results
      ensures t in asked && (Marked(results[t]) ==> Satisfied(Answer(results[t]), asked[t]))
    {
      ResultTold(l, asked, before, results, bits, t);
    }
  }

  lemma {:induction false} KeptOnList(l: seq<Waiter>, asked: map<Task, Bits>, before: map<Task, Bits>,
                                      results: map<Task, Bits>,
                                      bits: Bits, i: nat)
    requires Told(l, asked, before) && Delivered(before, results, Woken(l, bits), bits) && i < |Kept(l, bits)|
    ensures OnList(Kept(l, bits)[i], asked, results)
  {
    hide Satisfied, Marked, Answer, Plain, Or, Kept, Woken;
    var w, woken := Kept(l, bits)[i], Woken(l, bits);
    Partition(l, bits);
    assert w in Kept(l, bits) && w in l && OnList(w, asked, before);
    forall j | 0 <= j < |woken|
      ensures woken[j].task != w.task
    {
      assert woken[j] in woken && woken[j] in l && OnList(woken[j], asked, before);
    }
  }

  /** What a woken task is handed satisfies its own condition, whatever is cleared afterwards. */
  lemma {:induction false} ResultTold(l: seq<Waiter>, asked: map<Task, Bits>, before: map<Task, Bits>,
                                      results: map<Task, Bits>,
                                      bits: Bits, t: Task)
    requires Plain(bits) && Told(l, asked, before) && Delivered(before, results, Woken(l, bits), bits) && t in results
    ensures t in asked && (Marked(results[t]) ==> Satisfied(Answer(results[t]), asked[t]))
  {
    MarkedResult(bits);
    hide Satisfied, Marked, Answer, Plain, Or, Kept, Woken;
    var woken := Woken(l, bits);
    if HasTask(woken, t) {
      var i :| 0 <= i < |woken| && woken[i].task == t;
      Partition(l, bits);
      assert woken[i] in woken && woken[i] in l;
      assert OnList(woken[i], asked, before);
    }
  }

  lemma {:induction false} ItemUnmarked(wanted: Bits, clear: bool, all: bool)
    requires Plain(wanted)
    ensures !Marked(ItemValue(wanted, clear, all))
  {
  }

  lemma {:induction false} ToldMore(l: seq<Waiter>, asked: map<Task, Bits>, results: map<Task, Bits>,
                                    t: Task, wanted: Bits, clear: bool, all: bool)
    requires Told(l, asked, results) && Plain(wanted) && !HasTask(l, t)
    ensures Told(l + [Waiter(t, ItemValue(wanted, clear, all))], asked[t := ItemValue(wanted, clear, all)],
            results - {t})
  {
    ItemUnmarked(wanted, clear, all);
    hide Satisfied, Marked, Answer, Plain, ItemValue;
    assert forall i :: 0 <= i < |l| ==> l[i].task != t && OnList(l[i], asked, results);
  }

  lemma {:induction false} ToldFewer(l: seq<Waiter>, asked: map<Task, Bits>, results: map<Task, Bits>, k: nat)
    requires Told(l, asked, results) && k < |l|
    ensures !Marked(l[k].value) && Told(RemoveAt(l, k), asked, results[l[k].task := l[k].value])
  {
    hide Satisfied, Marked, Answer;
    var r, more := RemoveAt(l, k), results[l[k].task := l[k].value];
    assert OnList(l[k], asked, results);
    forall i | 0 <= i < |r|
      ensures OnList(r[i], asked, more)
    {
      var j := if i < k then i else i + 1;
      assert r[i] == l[j] && OnList(l[j], asked, results);
    }
  }

  ghost predicate Unmet(l: seq<Waiter>, bits: Bits) {
    forall i :: 0 <= i < |l| ==> !Satisfied(bits, l[i].value)
  }

  lemma {:induction false} UnmetAfterClear(l: seq<Waiter>, bits: Bits, gone: Bits)
    requires Unmet(l, bits) && Plain(bits)
    ensures Unmet(l, Without(bits, gone)) && Plain(Without(bits, gone))
  {
    PlainAfterClear(bits, gone);
    forall i | 0 <= i < |l|
      ensures !Satisfied(Without(bits, gone), l[i].value)
    {
      ClearUnmet(bits, gone, Wanted(l[i].value), All(l[i].value));
    }
  }

  lemma {:induction false} UnmetMore(l: seq<Waiter>, bits: Bits, t: Task, wanted: Bits, clear: bool, all: bool)
    requires Unmet(l, bits) && Plain(wanted) && !Met(bits, wanted, all)
    ensures Unmet(l + [Waiter(t, ItemValue(wanted, clear, all))], bits)
  {
    ItemRoundTrip(wanted, clear, all);
    hide ItemValue, Wanted, All, Met;
    var r := l + [Waiter(t, ItemValue(wanted, clear, all))];
    assert forall i :: 0 <= i < |r| ==> r[i] == if i < |l| then l[i] else Waiter(t, ItemValue(wanted, clear, all));
  }

  lemma {:induction false} UnmetFewer(l: seq<Waiter>, bits: Bits, k: nat)
    requires Unmet(l, bits) && k < |l|
    ensures Unmet(RemoveAt(l, k), bits)
  {
    var r := RemoveAt(l, k);
    assert forall i :: 0 <= i < |r| ==> r[i] == l[if i < k then i else i + 1];
  }

  lemma {:induction false} StillUnmet(bits: Bits, gone: Bits, wanted: Bits)
    requires !Met(bits, wanted, true)
    ensures !Met(Without(bits, gone), wanted, true)
  {
    ClearUnmet(bits, gone, wanted, true);
  }

  lemma {:induction false} PlainAnswer(a: Bits)
    ensures Plain(a) ==> Answer(a) == a
  {
  }

  /** Every woken task has been given the bits, marked as set; nobody else's result has changed. */
  ghost predicate Delivered(before: map<Task, Bits>, results: map<Task, Bits>, woken: seq<Waiter>, bits: Bits) {
    && (forall i :: 0 <= i < |woken| ==>
         woken[i].task in results && results[woken[i].task] == Or(bits, UNBLOCKED_BY_SET))
    && (forall t :: t in before && !HasTask(woken, t) ==> t in results && results[t] == before[t])
    && (forall t :: t in results ==> t in before || HasTask(woken, t))
  }

  predicate HasTask(l: seq<Waiter>, t: Task) {
    exists i :: 0 <= i < |l| && l[i].task == t
  }

  lemma {:induction false} DeliverOne(before: map<Task, Bits>, results: map<Task, Bits>, woken: seq<Waiter>, bits: Bits,
                                      w: Waiter)
    requires Delivered(before, results, woken, bits)
    ensures Delivered(before, results[w.task := Or(bits, UNBLOCKED_BY_SET)], woken + [w], bits)
  {
    var r, more := results[w.task := Or(bits, UNBLOCKED_BY_SET)], woken + [w];
    assert forall i :: 0 <= i < |woken| ==> more[i] == woken[i];
    assert more[|woken|] == w;
    forall t
      ensures HasTask(more, t) <==> HasTask(woken, t) || t == w.task
    {
      if HasTask(woken, t) {
        var i :| 0 <= i < |woken| && woken[i].task == t;
        assert more[i].task == t;
      }
    }
  }

  /** The walk has dealt with the first `seen` of all waiters; the first i of the list are kept. */
  ghost predicate Walked(all: seq<Waiter>, seen: nat, l: seq<Waiter>, i: nat, bits: Bits, clear: Bits,
                       before: map<Task, Bits>, results: map<Task, Bits>) {
    && seen <= |all| && i <= |l| && l[..i] == Kept(all[..seen], bits) && l[i..] == all[seen..]
    && clear == ToClear(all[..seen], bits) && Delivered(before, results, Woken(all[..seen], bits), bits) && Plain(bits)
  }

  lemma {:induction false} WalkStart(all: seq<Waiter>, bits: Bits, results: map<Task, Bits>)
    requires Plain(bits)
    ensures Walked(all, 0, all, 0, bits, 0, results, results)
  {
    assert all[..0] == [];
  }

  lemma {:induction false} WalkStep(all: seq<Waiter>, seen: nat, l: seq<Waiter>, i: nat, bits: Bits, clear: Bits,
                                    before: map<Task, Bits>, results: map<Task, Bits>)
    requires Walked(all, seen, l, i, bits, clear, before, results) && i < |l|
    ensures seen < |all|
    ensures var w := l[i];
            && (!Satisfied(bits, w.value) ==> Walked(all, seen + 1, l, i + 1, bits, clear, before, results))
            && (Satisfied(bits, w.value) ==>
                  && i <= |RemoveAt(l, i)|
                  && Walked(all, seen + 1, RemoveAt(l, i), i, bits, if Clears(w.value) then Or(clear, Wanted(w.value))
                       else clear,
                          before, results[w.task := Or(bits, UNBLOCKED_BY_SET)]))
  {
    hide Satisfied, Clears, Wanted, Or, Delivered, Plain;
    NextWaiter(all, seen, l, i, bits);
    OrZero(clear);
    assert Kept(all[..seen], bits) + [] == Kept(all[..seen], bits)
           && Woken(all[..seen], bits) + [] == Woken(all[..seen], bits);
    DeliverOne(before, results, Woken(all[..seen], bits), bits, l[i]);
  }

  lemma {:induction false} OrZero(a: Bits)
    ensures Or(a, 0) == a
  {
  }

  lemma {:induction false} WalkEnd(all: seq<Waiter>, seen: nat, l: seq<Waiter>, i: nat, bits: Bits, clear: Bits,
                                   before: map<Task, Bits>, results: map<Task, Bits>)
    requires Walked(all, seen, l, i, bits, clear, before, results) && i == |l|
    ensures l == Kept(all, bits) && clear == ToClear(all, bits) && Delivered(before, results, Woken(all, bits), bits)
    ensures Unmet(l, Without(bits, clear)) && Plain(Without(bits, clear))
  {
    hide Satisfied, Clears, Wanted, Or, Delivered, Without, Plain;
    assert |l[i..]| == 0 && seen == |all| && all[..seen] == all && l[..i] == l;
    KeptUnmet(all, bits);
    UnmetAfterClear(l, bits, clear);
  }

  lemma {:induction false} NextWaiter(all: seq<Waiter>, seen: nat, l: seq<Waiter>, i: nat, bits: Bits)
    requires seen <= |all| && i < |l| && l[i..] == all[seen..] && l[..i] == Kept(all[..seen], bits)
    ensures seen < |all| && l[i] == all[seen]
    ensures l[i + 1..] == all[seen + 1..] && RemoveAt(l, i)[..i] == l[..i] && RemoveAt(l, i)[i..] == all[seen + 1..]
    ensures l[..i + 1] == l[..i] + [l[i]]
    ensures Kept(all[..seen + 1], bits) == Kept(all[..seen], bits) + if Satisfied(bits, all[seen].value) then []
            else [all[seen]]
    ensures Woken(all[..seen + 1], bits) == Woken(all[..seen], bits) + if Satisfied(bits, all[seen].value)
            then [all[seen]] else []
    ensures ToClear(all[..seen + 1], bits)
         == Or(ToClear(all[..seen], bits), if Satisfied(bits, all[seen].value) && Clears(all[seen].value)
             then Wanted(all[seen].value) else 0)
  {
    hide Satisfied, Clears, Wanted, Or;
    assert l[i..][0] == l[i] && all[seen..][0] == all[seen];
    assert l[i + 1..] == l[i..][1..] && all[seen + 1..] == all[seen..][1..];
    assert all[..seen + 1][..seen] == all[..seen];
  }

  /** Nobody who was kept is satisfied. */
  lemma {:induction false} KeptUnmet(l: seq<Waiter>, bits: Bits)
    ensures Unmet(Kept(l, bits), bits)
  {
    hide Satisfied;
    var k := Kept(l, bits);
    Partition(l, bits);
    assert forall i :: 0 <= i < |k| ==> k[i] in k;
  }

  // ------------------------------------------------------------------------ whole runs

  datatype Call =
    | Set(more: Bits) | Clear(gone: Bits)
    | Wait(t: Task, wanted: Bits, clear: bool, all: bool, ticks: nat) | Meet(t: Task, more: Bits, wanted: Bits,
        ticks: nat)
    | Expire(k: nat) | Finish(t: Task)

  /** A task that waits makes no call, and no call may use the control bits. */
  predicate Possible(s: Group, c: Call) {
    match c
    case Set(more) => Plain(more)
    case Clear(_) => true
    case Wait(t, wanted, _, _, _) => Plain(wanted) && wanted != 0 && !HasTask(s.waiters, t)
    case Meet(t, more, wanted, _) => Plain(more) && Plain(wanted) && wanted != 0 && !HasTask(s.waiters, t)
    case Expire(k) => k < |s.waiters|
    case Finish(t) => t in s.results && t in s.asked
  }

  function Next(s: Group, c: Call): Group
    requires Possible(s, c)
  {
    match c
    case Set(more) => AfterSet(s, more)
    case Clear(gone) => AfterClear(s, gone)
    case Wait(t, wanted, clear, all, ticks) => AfterWait(s, t, wanted, clear, all, ticks)
    case Meet(t, more, wanted, ticks) => AfterSync(s, t, more, wanted, ticks)
    case Expire(k) => AfterExpire(s, k)
    case Finish(t) => AfterFinish(s, t)
  }

  lemma {:induction false} NextOk(s: Group, c: Call)
    requires GroupOk(s) && Possible(s, c)
    ensures GroupOk(Next(s, c))
  {
    hide GroupOk, Plain, HasTask, AfterSet, AfterClear, AfterWait, AfterSync, AfterExpire, AfterFinish;
    match c
    case Set(more) => SetOk(s, more);
    case Clear(gone) => ClearOk(s, gone);
    case Wait(t, wanted, clear, all, ticks) => WaitOk(s, t, wanted, clear, all, ticks);
    case Meet(t, more, wanted, ticks) => SyncOk(s, t, more, wanted, ticks);
    case Expire(k) => ExpireOk(s, k);
    case Finish(t) => FinishOk(s, t);
  }

  ghost predicate Run(states: seq<Group>, calls: seq<Call>) {
    && |states| == |calls| + 1 && states[0] == Group(0, [], map[], map[])
    && forall i :: 0 <= i < |calls| ==> Follows(states[i], calls[i], states[i + 1])
  }

  ghost predicate Follows(s: Group, c: Call, r: Group) {
    Possible(s, c) && r == Next(s, c)
  }

  lemma {:induction false} RunOk(states: seq<Group>, calls: seq<Call>, i: nat)
    requires Run(states, calls) && i <= |calls|
    ensures GroupOk(states[i])
  {
    if i == 0 {
      NoControl();
    } else {
      RunOk(states, calls, i - 1);
      assert Follows(states[i - 1], calls[i - 1], states[i]);
      hide GroupOk, Next;
      NextOk(states[i - 1], calls[i - 1]);
    }
  }

  /** The call is a wait or a rendezvous of t that puts it on the list. */
  ghost predicate Blocks(s: Group, c: Call, t: Task) {
    Possible(s, c) && (c.Wait? || c.Meet?) && c.t == t && HasTask(Next(s, c).waiters, t)
  }

  /** Call j is the last one before i that put t on the list. */
  ghost predicate LastBlock(states: seq<Group>, calls: seq<Call>, j: nat, i: nat, t: Task)
    requires |states| == |calls| + 1 && i <= |calls|
  {
    && j < i && Blocks(states[j], calls[j], t) && Plain(calls[j].wanted)
    && forall k :: j < k < i ==> !Blocks(states[k], calls[k], t)
  }

  predicate ForAll(c: Call) {
    c.Meet? || (c.Wait? && c.all)
  }

  predicate ForClear(c: Call) {
    c.Meet? || (c.Wait? && c.clear)
  }

  /** A call that does not put t on the list does not change what t asked for; one that does, records it. */
  lemma {:induction false} AskedNext(s: Group, c: Call, t: Task)
    requires Possible(s, c)
    ensures var r := Next(s, c);
            if Blocks(s, c, t) then
              && Plain(c.wanted) && t in r.asked && r.asked[t] == ItemValue(c.wanted, ForClear(c), ForAll(c))
            else (t in r.asked <==> t in s.asked) && (t in r.asked ==> r.asked[t] == s.asked[t])
  {
    hide Met, Without, ItemValue, Plain, Or, ToClear, Kept, Woken, HandOut, Clears, Satisfied, Wanted, Marked, RemoveAt;
    hide HasTask;
    match c
    case Wait(u, wanted, clear, all, ticks) => JoinHas(s, u, wanted, clear, all);
    case Meet(u, more, wanted, ticks) =>
      JoinHas(AfterSet(s, more), u, wanted, true, true);
      NotKept(s.waiters, Or(s.bits, more), u);
    case _ =>
  }

  lemma {:induction false} JoinHas(s: Group, t: Task, wanted: Bits, clear: bool, all: bool)
    ensures HasTask(Join(s, t, wanted, clear, all).waiters, t)
  {
    var r := Join(s, t, wanted, clear, all);
    assert r.waiters[|s.waiters|].task == t;
  }

  lemma {:induction false} AskedFrom(states: seq<Group>, calls: seq<Call>, i: nat, t: Task) returns (j: nat)
    requires Run(states, calls) && i <= |calls| && t in states[i].asked
    ensures LastBlock(states, calls, j, i, t)
    ensures states[i].asked[t] == ItemValue(calls[j].wanted, ForClear(calls[j]), ForAll(calls[j]))
  {
    hide Blocks, ItemValue, Plain, Next, Possible;
    assert i > 0;
    assert Follows(states[i - 1], calls[i - 1], states[i]);
    AskedNext(states[i - 1], calls[i - 1], t);
    if Blocks(states[i - 1], calls[i - 1], t) {
      j := i - 1;
    } else {
      j := AskedFrom(states, calls, i - 1, t);
    }
  }

  /**
   * In every state of every run of calls on a group, the condition of no task on its list holds
   * of the bits there are.  A wait that ends because bits were set returns bits for which the
   * condition of the task's last blocking call holds, bit by bit, whatever has been cleared since.
   */
  lemma {:induction false} RunTold(states: seq<Group>, calls: seq<Call>, i: nat)
    requires Run(states, calls) && i <= |calls|
    ensures forall k :: 0 <= k < |states[i].waiters| ==>
              var v := states[i].waiters[k].value; !Has(states[i].bits, Wanted(v), All(v))
    ensures i < |calls| && calls[i].Finish? ==>
              var s, t := states[i], calls[i].t;
              && t in s.results && t in s.asked
              && (Marked(s.results[t]) ==>
                    exists j :: 0 <= j < i && LastBlock(states, calls, j, i, t)
                      && Has(Returned(s, t), calls[j].wanted, ForAll(calls[j])))
  {
    hide Marked, Returned, Told, Has, Met, Wanted, All, LastBlock, ItemValue, Plain, Possible, Next;
    var s := states[i];
    RunOk(states, calls, i);
    forall k | 0 <= k < |s.waiters|
      ensures !Has(s.bits, Wanted(s.waiters[k].value), All(s.waiters[k].value))
    {
      assert !Satisfied(s.bits, s.waiters[k].value);
      MetExact(s.bits, Wanted(s.waiters[k].value), All(s.waiters[k].value));
    }
    if i < |calls| && calls[i].Finish? {
      var t := calls[i].t;
      assert Follows(s, calls[i], states[i + 1]);
      FinishNeeds(s, calls[i]);
      FinishOk(s, t);
      if Marked(s.results[t]) {
        var j := AskedFrom(states, calls, i, t);
        BlockPlain(states, calls, j, i, t);
        ItemRoundTrip(calls[j].wanted, ForClear(calls[j]), ForAll(calls[j]));
        MetExact(Returned(s, t), calls[j].wanted, ForAll(calls[j]));
      }
    }
  }

  lemma {:induction false} FinishNeeds(s: Group, c: Call)
    requires Possible(s, c) && c.Finish?
    ensures c.t in s.results && c.t in s.asked
  {
  }

  lemma {:induction false} BlockPlain(states: seq<Group>, calls: seq<Call>, j: nat, i: nat, t: Task)
    requires |states| == |calls| + 1 && i <= |calls| && LastBlock(states, calls, j, i, t)
    ensures j < i && (calls[j].Wait? || calls[j].Meet?) && Plain(calls[j].wanted)
  {
  }
}
