/**
 * The storage of a FreeRTOS queue (FreeRTOS/Source/queue.c): a byte ring that is written at
 * pcWriteTo, read one item past pcReadFrom and counted by uxMessagesWaiting.  It is proved to
 * be a bounded double-ended queue of items, for every length and every item size.
 *
 * Positions are byte offsets from pcHead, so pcHead is 0 and pcTail is length * size.
 */
module QueueRing {
  import opened Bytes

  type Item = seq<Byte>

  // ------------------------------------------------------------------------ slots

  /** A position that has run at most twice around a ring of n slots, brought back into it. */
  function Wrap(k: nat, n: nat): (r: nat)
    requires 0 < n && k <= 2 * n
    ensures r < n
  {
    if k < n then k else if k < 2 * n then k - n else k - 2 * n
  }

  function Before(k: nat, n: nat): (r: nat)
    requires k < n
    ensures r < n && Wrap(r + 1, n) == k
  {
    if k == 0 then n - 1 else k - 1
  }

  /** The items in the n slots that follow the read position r. */
  ghost function Window(slots: seq<Item>, r: nat, n: nat): (w: seq<Item>)
    requires r < |slots| && n <= |slots|
    ensures |w| == n
  {
    seq(n, j requires 0 <= j < n => slots[Wrap(r + 1 + j, |slots|)])
  }

  lemma {:induction false} WindowBack(slots: seq<Item>, r: nat, n: nat, x: Item)
    requires r < |slots| && n < |slots|
    ensures Window(slots[Wrap(r + 1 + n, |slots|) := x], r, n + 1) == Window(slots, r, n) + [x]
  {
    var at := Wrap(r + 1 + n, |slots|);
    var filled := slots[at := x];
    var a, b := Window(filled, r, n + 1), Window(slots, r, n) + [x];
    forall j | 0 <= j < n + 1
      ensures a[j] == b[j]
    {
      assert a[j] == filled[Wrap(r + 1 + j, |slots|)];
    }
  }

  lemma {:induction false} WindowFront(slots: seq<Item>, r: nat, n: nat, x: Item)
    requires r < |slots| && n < |slots|
    ensures Window(slots[r := x], Before(r, |slots|), n + 1) == [x] + Window(slots, r, n)
  {
    var a := Window(slots[r := x], Before(r, |slots|), n + 1);
    var b := [x] + Window(slots, r, n);
    forall j | 0 <= j < n + 1
      ensures a[j] == b[j]
    {
      if j > 0 {
        assert Wrap(Before(r, |slots|) + 1 + j, |slots|) == Wrap(r + 1 + (j - 1), |slots|);
      }
    }
  }

  lemma {:induction false} WindowPop(slots: seq<Item>, r: nat, n: nat)
    requires r < |slots| && 0 < n <= |slots|
    ensures Window(slots, r, n) == [slots[Wrap(r + 1, |slots|)]] + Window(slots, Wrap(r + 1, |slots|), n - 1)
  {
    var s := Wrap(r + 1, |slots|);
    var a := Window(slots, r, n);
    var b := [slots[s]] + Window(slots, s, n - 1);
    forall j | 0 <= j < n
      ensures a[j] == b[j]
    {
      if j > 0 {
        assert Wrap(s + 1 + (j - 1), |slots|) == Wrap(r + 1 + j, |slots|);
      }
    }
  }

  /** The bytes of the storage area are these items, one after the other. */
  ghost predicate Holds(mem: seq<Byte>, size: nat, slots: seq<Item>) {
    && |mem| == |slots| * size
    && forall k :: 0 <= k < |slots| ==> Sits(mem, size, slots[k], k)
  }

  ghost predicate Sits(mem: seq<Byte>, size: nat, x: Item, k: nat) {
    && |x| == size
    && k * size + size <= |mem|
    && mem[k * size..k * size + size] == x
  }

  lemma {:induction false} SlotOrder(j: nat, k: nat, size: nat)
    requires j < k
    ensures j * size + size <= k * size
  {
    assert k * size == j * size + (k - j) * size;
    assert (k - j) * size == size + (k - j - 1) * size;
  }

  function Stored(mem: seq<Byte>, at: nat, x: Item): (r: seq<Byte>)
    requires at + |x| <= |mem|
    ensures |r| == |mem|
  {
    mem[..at] + x + mem[at + |x|..]
  }

  lemma {:induction false} StoredSlot(mem: seq<Byte>, size: nat, slots: seq<Item>, k: nat, x: Item)
    requires Holds(mem, size, slots) && k < |slots| && |x| == size
    ensures k * size + size <= |mem|
    ensures Holds(Stored(mem, k * size, x), size, slots[k := x])
  {
    assert Sits(mem, size, slots[k], k);
    var after := Stored(mem, k * size, x);
    var filled := slots[k := x];
    forall j | 0 <= j < |filled|
      ensures Sits(after, size, filled[j], j)
    {
      assert Sits(mem, size, slots[j], j);
      if j < k {
        SlotOrder(j, k, size);
        assert after[j * size..j * size + size] == mem[j * size..j * size + size];
      } else if k < j {
        SlotOrder(k, j, size);
        assert after[j * size..j * size + size] == mem[j * size..j * size + size];
      } else {
        assert after[k * size..k * size + size] == x;
      }
    }
  }

  /** Stepping one item forwards in bytes is stepping one slot forwards. */
  lemma {:induction false} StepForwards(k: nat, n: nat, size: nat)
    requires k < n && 0 < size
    ensures k * size + size >= n * size <==> k + 1 == n
    ensures k * size + size == (k + 1) * size
  {
    if k + 1 < n {
      SlotOrder(k + 1, n, size);
    }
  }

  /** Stepping one item backwards in bytes is stepping one slot backwards. */
  lemma {:induction false} StepBackwards(k: nat, n: nat, size: nat)
    requires k < n && 0 < size
    ensures k * size - size < 0 <==> k == 0
    ensures Before(k, n) * size == if k == 0 then n * size - size else k * size - size
  {
    if 0 < k {
      SlotOrder(0, k, size);
    }
  }

  // ---------------------------------------------------------------- the bounded deque

  datatype Position = ToBack | ToFront | Overwriting

  datatype Op = Send(x: Item, to: Position) | Receive | Peek | Reset

  datatype Reply = Sent | Full | Got(x: Item) | Empty | Done

  datatype Deque = Deque(items: seq<Item>, reply: Reply)

  /** What one call does to a bounded double-ended queue, and what it answers. */
  function Serve(items: seq<Item>, length: nat, op: Op): (d: Deque)
    ensures |items| <= length && 0 < length ==> |d.items| <= length
  {
    match op
    case Send(x, Overwriting) => Deque([x] + if items == [] then [] else items[1..], Sent)
    case Send(x, to) =>
      if |items| >= length then Deque(items, Full)
      else Deque(if to.ToBack? then items + [x] else [x] + items, Sent)
    case Receive => if items == [] then Deque(items, Empty) else Deque(items[1..], Got(items[0]))
    case Peek => Deque(items, if items == [] then Empty else Got(items[0]))
    case Reset => Deque([], Done)
  }

  /** The calls the source allows: items of the right size, overwriting only where one fits. */
  predicate Allowed(op: Op, length: nat, size: nat) {
    op.Send? ==> |op.x| == size && (op.to.Overwriting? ==> length == 1)
  }

  /** Allowed, and not overwriting a semaphore, which has no item to overwrite. */
  predicate Fitting(op: Op, length: nat, size: nat) {
    Allowed(op, length, size) && (op.Send? && op.to.Overwriting? ==> 0 < size)
  }

  predicate AllFitting(ops: seq<Op>, length: nat, size: nat) {
    forall i :: 0 <= i < |ops| ==> Fitting(ops[i], length, size)
  }

  /** The items left and the answers given after a whole run of calls. */
  function ServeAll(items: seq<Item>, length: nat, ops: seq<Op>): (r: (seq<Item>, seq<Reply>))
    ensures |r.1| == |ops|
  {
    if ops == [] then (items, [])
    else
      var before := ServeAll(items, length, ops[..|ops| - 1]);
      var d := Serve(before.0, length, ops[|ops| - 1]);
      (d.items, before.1 + [d.reply])
  }

  /** The item a call put in, and the item it took out, if any. */
  function PutIn(op: Op, reply: Reply): seq<Item> {
    if op.Send? && reply.Sent? then [op.x] else []
  }

  function TookOut(op: Op, reply: Reply): seq<Item> {
    if op.Receive? && reply.Got? then [reply.x] else []
  }

  /** The items the run accepted, in order. */
  function Accepted(ops: seq<Op>, replies: seq<Reply>): seq<Item>
    requires |ops| == |replies|
  {
    if ops == [] then []
    else
      var n := |ops| - 1;
      Accepted(ops[..n], replies[..n]) + PutIn(ops[n], replies[n])
  }

  /** The items the run handed out, in order. */
  function Taken(ops: seq<Op>, replies: seq<Reply>): seq<Item>
    requires |ops| == |replies|
  {
    if ops == [] then []
    else
      var n := |ops| - 1;
      Taken(ops[..n], replies[..n]) + TookOut(ops[n], replies[n])
  }

  predicate InOrder(op: Op) {
    op.Receive? || op.Peek? || (op.Send? && op.to.ToBack?)
  }

  predicate Keeping(op: Op) {
    !op.Reset? && (op.Send? ==> !op.to.Overwriting?)
  }

  /** A run is its last call after the run before it. */
  lemma {:induction false} RunStep(items: seq<Item>, length: nat, ops: seq<Op>, op: Op)
    ensures var before := ServeAll(items, length, ops);
            var d := Serve(before.0, length, op);
            var r := ServeAll(items, length, ops + [op]);
            && r == (d.items, before.1 + [d.reply])
            && Accepted(ops + [op], r.1) == Accepted(ops, before.1) + PutIn(op, d.reply)
            && Taken(ops + [op], r.1) == Taken(ops, before.1) + TookOut(op, d.reply)
  {
    var all := ops + [op];
    assert all[..|all| - 1] == ops;
    var before := ServeAll(items, length, ops);
    var replies := ServeAll(items, length, all).1;
    assert replies[..|all| - 1] == before.1;
  }

  lemma {:induction false} OrderStep(items: seq<Item>, went: seq<Item>, came: seq<Item>, now: seq<Item>,
                                     length: nat, op: Op)
    requires items + went == came + now && InOrder(op)
    ensures var d := Serve(now, length, op);
            items + (went + PutIn(op, d.reply)) == (came + TookOut(op, d.reply)) + d.items
  {
    var d := Serve(now, length, op);
    assert items + (went + PutIn(op, d.reply)) == (came + now) + PutIn(op, d.reply);
    assert now + PutIn(op, d.reply) == TookOut(op, d.reply) + d.items;
    assert came + (now + PutIn(op, d.reply)) == (came + now) + PutIn(op, d.reply);
  }

  /** Sending to the back only, what goes in comes out in the order it went in. */
  lemma {:induction false} FirstInFirstOut(items: seq<Item>, length: nat, ops: seq<Op>)
    requires forall i :: 0 <= i < |ops| ==> InOrder(ops[i])
    ensures var r := ServeAll(items, length, ops);
            items + Accepted(ops, r.1) == Taken(ops, r.1) + r.0
  {
    if ops != [] {
      hide Serve, InOrder, PutIn, TookOut;
      var rest, op := ops[..|ops| - 1], ops[|ops| - 1];
      assert ops == rest + [op];
      RunStep(items, length, rest, op);
      FirstInFirstOut(items, length, rest);
      var before := ServeAll(items, length, rest);
      OrderStep(items, Accepted(rest, before.1), Taken(rest, before.1), before.0, length, op);
    }
  }

  lemma {:induction false} KeepStep(now: seq<Item>, length: nat, op: Op)
    requires Keeping(op)
    ensures var d := Serve(now, length, op);
            multiset(now) + multiset(PutIn(op, d.reply)) == multiset(TookOut(op, d.reply)) + multiset(d.items)
  {
    if op.Receive? && now != [] {
      assert now == [now[0]] + now[1..];
    }
  }

  lemma {:induction false} BagStep(items: multiset<Item>, went: multiset<Item>, came: multiset<Item>,
                                   now: multiset<Item>, put: multiset<Item>, took: multiset<Item>,
                                   next: multiset<Item>)
    requires items + went == came + now && now + put == took + next
    ensures items + (went + put) == (came + took) + next
  {
    assert items + (went + put) == (came + now) + put == came + (took + next);
  }

  /** Whatever the mix of ends, no item is lost, repeated or made up. */
  lemma {:induction false} NothingLost(items: seq<Item>, length: nat, ops: seq<Op>)
    requires forall i :: 0 <= i < |ops| ==> Keeping(ops[i])
    ensures var r := ServeAll(items, length, ops);
            multiset(items) + multiset(Accepted(ops, r.1)) == multiset(Taken(ops, r.1)) + multiset(r.0)
  {
    if ops != [] {
      hide Serve, Keeping, PutIn, TookOut;
      var rest, op := ops[..|ops| - 1], ops[|ops| - 1];
      assert ops == rest + [op];
      RunStep(items, length, rest, op);
      NothingLost(items, length, rest);
      var before := ServeAll(items, length, rest);
      var d := Serve(before.0, length, op);
      KeepStep(before.0, length, op);
      BagStep(multiset(items), multiset(Accepted(rest, before.1)), multiset(Taken(rest, before.1)),
              multiset(before.0), multiset(PutIn(op, d.reply)), multiset(TookOut(op, d.reply)),
              multiset(d.items));
    }
  }

  // ----------------------------------------------------------------- the front end

  /** An item sent to the front is the next to be seen, and receiving it leaves the items there were. */
  lemma {:induction false} FrontIsNext(items: seq<Item>, length: nat, x: Item)
    ensures var d := Serve(items, length, Send(x, ToFront));
            if |items| < length then
              && d.reply == Sent && Serve(d.items, length, Peek) == Deque(d.items, Got(x))
              && Serve(d.items, length, Receive) == Deque(items, Got(x))
            else d == Deque(items, Full)
  {
    assert ([x] + items)[1..] == items;
  }

  /** An item that overwrites is the next to be seen, and the one that was there is not seen again. */
  lemma {:induction false} OverwriteIsNext(items: seq<Item>, length: nat, x: Item)
    ensures var d := Serve(items, length, Send(x, Overwriting));
            && d.reply == Sent && Serve(d.items, length, Peek) == Deque(d.items, Got(x))
            && Serve(d.items, length, Receive) == Deque(if items == [] then [] else items[1..], Got(x))
  {
    assert items != [] ==> ([x] + items[1..])[1..] == items[1..];
  }

  function Reverse(xs: seq<Item>): (r: seq<Item>)
    ensures |r| == |xs| && forall i :: 0 <= i < |xs| ==> r[i] == xs[|xs| - 1 - i]
  {
    seq(|xs|, i requires 0 <= i < |xs| => xs[|xs| - 1 - i])
  }

  function FrontSends(xs: seq<Item>): seq<Op> {
    seq(|xs|, i requires 0 <= i < |xs| => Send(xs[i], ToFront))
  }

  function Receives(n: nat): seq<Op> {
    seq(n, _ => Receive)
  }

  function AllSent(n: nat): seq<Reply> {
    seq(n, _ => Sent)
  }

  function Answers(xs: seq<Item>): seq<Reply> {
    seq(|xs|, i requires 0 <= i < |xs| => Got(xs[i]))
  }

  lemma {:induction false} OneMoreFront(xs: seq<Item>, items: seq<Item>)
    requires xs != []
    ensures var n := |xs| - 1;
            && FrontSends(xs) == FrontSends(xs[..n]) + [Send(xs[n], ToFront)]
            && [xs[n]] + (Reverse(xs[..n]) + items) == Reverse(xs) + items && AllSent(n) + [Sent] == AllSent(n + 1)
  {
    var n := |xs| - 1;
    assert Reverse(xs) == [xs[n]] + Reverse(xs[..n]);
  }

  lemma {:induction false} StackUp(items: seq<Item>, length: nat, xs: seq<Item>)
    requires |items| + |xs| <= length
    ensures ServeAll(items, length, FrontSends(xs)) == (Reverse(xs) + items, AllSent(|xs|))
  {
    if xs == [] {
      assert Reverse(xs) + items == items;
    } else {
      hide ServeAll, Accepted, Taken, FrontSends, Reverse, AllSent;
      var n := |xs| - 1;
      StackUp(items, length, xs[..n]);
      RunStep(items, length, FrontSends(xs[..n]), Send(xs[n], ToFront));
      OneMoreFront(xs, items);
    }
  }

  lemma {:induction false} OneMoreReceive(q: seq<Item>, ops: seq<Op>, n: nat)
    requires 0 < n <= |q|
    ensures ops + Receives(n) == ops + Receives(n - 1) + [Receive] && q[n - 1..] != [] && q[n - 1..][0] == q[n - 1]
    ensures q[n - 1..][1..] == q[n..] && Answers(q[..n]) == Answers(q[..n - 1]) + [Got(q[n - 1])]
  {
  }

  lemma {:induction false} ReceiveMany(items: seq<Item>, length: nat, ops: seq<Op>, n: nat)
    requires n <= |ServeAll(items, length, ops).0|
    ensures var before := ServeAll(items, length, ops);
            ServeAll(items, length, ops + Receives(n)) == (before.0[n..], before.1 + Answers(before.0[..n]))
  {
    hide ServeAll, Accepted, Taken;
    var before := ServeAll(items, length, ops);
    if n == 0 {
      assert ops + Receives(0) == ops && before.1 + Answers(before.0[..0]) == before.1;
    } else {
      hide Answers, Receives;
      var q, m := before.0, n - 1;
      ReceiveMany(items, length, ops, m);
      RunStep(items, length, ops + Receives(m), Receive);
      OneMoreReceive(q, ops, n);
      assert before.1 + Answers(q[..m]) + [Got(q[m])] == before.1 + Answers(q[..n]);
    }
  }

  /** An item sent to the back is accepted exactly if there is room, and comes out after all the others. */
  lemma {:induction false} BackIsLast(items: seq<Item>, length: nat, x: Item)
    ensures var replies := ServeAll(items, length, [Send(x, ToBack)] + Receives(|items| + 1)).1;
            replies == if |items| < length then [Sent] + Answers(items + [x]) else [Full] + Answers(items) + [Empty]
  {
    hide ServeAll, Accepted, Taken, Receives, Answers;
    var send, n := [Send(x, ToBack)], |items|;
    OneCall(items, length, Send(x, ToBack));
    var q := ServeAll(items, length, send).0;
    if n < length {
      ReceiveMany(items, length, send, n + 1);
      assert q[..n + 1] == items + [x];
    } else {
      ReceiveMany(items, length, send, n);
      assert q[..n] == items;
      RunStep(items, length, send + Receives(n), Receive);
      NextReceive(send, n);
    }
  }

  lemma {:induction false} OneCall(items: seq<Item>, length: nat, op: Op)
    ensures var d := Serve(items, length, op); ServeAll(items, length, [op]) == (d.items, [d.reply])
  {
    RunStep(items, length, [], op);
    assert [] + [op] == [op];
  }

  lemma {:induction false} NextReceive(ops: seq<Op>, n: nat)
    ensures ops + Receives(n + 1) == ops + Receives(n) + [Receive]
  {
  }

  /** A peek answers what the next receive answers, which is Empty exactly if nothing is there, as after a reset. */
  lemma {:induction false} PeekIsReceive(items: seq<Item>, length: nat)
    ensures Serve(items, length, Peek) == Deque(items, Serve(items, length, Receive).reply)
    ensures Serve(items, length, Receive).reply == Empty <==> items == []
    ensures Serve(Serve(items, length, Reset).items, length, Receive).reply == Empty
  {
  }

  /** Items sent to the front come out in reverse: last in, first out; what was there before stays. */
  lemma {:induction false} LastInFirstOut(items: seq<Item>, length: nat, xs: seq<Item>)
    requires |items| + |xs| <= length
    ensures ServeAll(items, length, FrontSends(xs) + Receives(|xs|))
         == (items, AllSent(|xs|) + Answers(Reverse(xs)))
  {
    StackUp(items, length, xs);
    ReceiveMany(items, length, FrontSends(xs), |xs|);
    assert (Reverse(xs) + items)[..|xs|] == Reverse(xs) && (Reverse(xs) + items)[|xs|..] == items;
  }

  // ------------------------------------------------------------------------ the ring

  /** The write position is the slot after the last waiting item. */
  predicate Aligned(length: nat, r: nat, w: nat, waiting: nat) {
    r < length && waiting <= length && w == Wrap(r + 1 + waiting, length)
  }

  lemma {:induction false} AlignedFront(length: nat, r: nat, w: nat, waiting: nat)
    requires Aligned(length, r, w, waiting) && waiting < length
    ensures Aligned(length, Before(r, length), w, waiting + 1)
  {
  }

  lemma {:induction false} AlignedPop(length: nat, r: nat, w: nat, waiting: nat)
    requires Aligned(length, r, w, waiting) && 0 < waiting
    ensures Aligned(length, Wrap(r + 1, length), w, waiting - 1)
  {
  }

  /**
   * Overwriting moves the read position and leaves the write position and the count of a
   * queue that holds something, so the ring stays well formed exactly where the call is
   * allowed, or where the queue was empty and overwriting is sending to the front.
   */
  lemma {:induction false} OverwriteExact(length: nat, r: nat, w: nat, waiting: nat)
    requires Aligned(length, r, w, waiting)
    ensures Aligned(length, Before(r, length), w, if waiting == 0 then 1 else waiting)
            <==> length == 1 || waiting == 0
  {
    if waiting == 0 {
      AlignedFront(length, r, w, waiting);
    }
  }

  /** The count after an item was copied in; an item of no bytes never counts as overwritten. */
  function Counted(size: nat, waiting: nat, to: Position): nat {
    if 0 < size && to.Overwriting? && 0 < waiting then waiting else waiting + 1
  }

  /**
   * The guard of a send lets an overwrite pass although the queue is full.  The count then
   * stays within the length unless the items have no bytes and the queue was full.
   */
  lemma {:induction false} CountExact(size: nat, waiting: nat, length: nat, to: Position)
    requires waiting <= length && 0 < length
    requires waiting < length || to.Overwriting?
    ensures Counted(size, waiting, to) <= length <==> waiting < length || 0 < size
  {
  }

  class Ring {
    const length: nat
    const size: nat
    const mem: array<Byte>
    var waiting: nat
    var writeTo: nat
    var readFrom: nat
    ghost var slots: seq<Item>
    ghost var w: nat
    ghost var r: nat

    ghost predicate Valid()
      reads this, mem
    {
      && 0 < length == |slots|
      && Holds(mem[..], size, slots)
      && waiting <= length
      && r < length
      && (0 < size ==> Aligned(length, r, w, waiting) && writeTo == w * size && readFrom == r * size)
    }

    /** The waiting items, the next to be received first. */
    ghost function Contents(): (c: seq<Item>)
      reads this, mem
      requires Valid()
      ensures |c| == waiting
    {
      if size == 0 then seq(waiting, _ => []) else Window(slots, r, waiting)
    }

    constructor (length: nat, size: nat)
      requires 0 < length
      ensures Valid() && fresh(mem) && this.length == length && this.size == size
      ensures Contents() == []
    {
      this.length, this.size := length, size;
      mem := new Byte[length * size](_ => 0);
      waiting, writeTo, readFrom := 0, 0, (length - 1) * size;
      slots, w, r := seq(length, _ => Zeros(size)), 0, length - 1;
      new;
      ZeroSlots(mem[..], length, size);
    }

    /** xQueueGenericReset: the positions start again and the bytes stay. */
    method Clear()
      requires Valid()
      modifies this
      ensures Valid() && Contents() == Serve(old(Contents()), length, Reset).items
    {
      waiting, writeTo, readFrom := 0, 0, (length - 1) * size;
      w, r := 0, length - 1;
    }

    method Store(at: nat, x: Item, ghost k: nat)
      requires Holds(mem[..], size, slots) && k < |slots| && |x| == size && at == k * size
      modifies mem, this`slots
      ensures slots == old(slots)[k := x] && Holds(mem[..], size, slots)
    {
      StoredSlot(mem[..], size, slots, k, x);
      ghost var before := mem[..];
      forall i | 0 <= i < |x| {
        mem[at + i] := x[i];
      }
      assert mem[..] == Stored(before, at, x);
      slots := slots[k := x];
    }

    method CopyToBack(x: Item)
      requires Valid() && 0 < size == |x| && waiting < length
      modifies this, mem
      ensures Valid() && Contents() == old(Contents()) + [x]
    {
      StepForwards(w, length, size);
      WindowBack(slots, r, waiting, x);
      Store(writeTo, x, w);
      writeTo := writeTo + size;
      if writeTo >= length * size {
        writeTo := 0;
      }
      w := Wrap(w + 1, length);
      waiting := waiting + 1;
    }

    /** The read position moves one item backwards, from the start of the storage to its end. */
    method StepBack()
      requires r < length && 0 < size && readFrom == r * size
      modifies this`readFrom, this`r
      ensures r == Before(old(r), length) && readFrom == r * size
    {
      StepBackwards(r, length, size);
      readFrom := if readFrom < size then length * size - size else readFrom - size;
      r := Before(r, length);
    }

    method CopyToFront(x: Item)
      requires Valid() && 0 < size == |x| && waiting < length
      modifies this, mem
      ensures Valid() && Contents() == [x] + old(Contents())
    {
      WindowFront(slots, r, waiting, x);
      AlignedFront(length, r, w, waiting);
      Store(readFrom, x, r);
      StepBack();
      waiting := waiting + 1;
    }

    /** Overwriting the one item of a full queue of length one. */
    method CopyOver(x: Item)
      requires Valid() && 0 < size == |x| && length == waiting == 1
      modifies this, mem
      ensures Valid() && Contents() == [x]
    {
      Store(readFrom, x, r);
      StepBack();
    }

    /** prvCopyDataToQueue. */
    method CopyIn(x: Item, to: Position)
      requires Valid() && |x| == size
      requires waiting < length || to.Overwriting?
      requires to.Overwriting? ==> length == 1
      modifies this, mem
      ensures waiting == Counted(size, old(waiting), to)
      ensures waiting <= length ==> Valid() && Contents() == Serve(old(Contents()), length, Send(x, to)).items
    {
      if size == 0 {
        waiting := waiting + 1;
      } else if to == ToBack {
        CopyToBack(x);
      } else if to == Overwriting && waiting > 0 {
        CopyOver(x);
      } else {
        CopyToFront(x);
      }
    }

    /** prvCopyDataFromQueue: the read position moves on and the item there is copied out. */
    method CopyOut() returns (x: Item)
      requires Valid() && 0 < waiting
      modifies this`readFrom
      ensures x == old(Contents())[0]
      ensures 0 < size ==> readFrom == Wrap(r + 1, length) * size
      ensures size == 0 ==> readFrom == old(readFrom)
    {
      x := [];
      if size != 0 {
        StepForwards(r, length, size);
        readFrom := readFrom + size;
        if readFrom >= length * size {
          readFrom := 0;
        }
        ghost var next := Wrap(r + 1, length);
        assert Sits(mem[..], size, slots[next], next);
        x := mem[readFrom..readFrom + size];
      }
    }

    /** xQueueGenericSend, where it does not block. */
    method Post(x: Item, to: Position) returns (reply: Reply)
      requires Valid() && Allowed(Send(x, to), length, size)
      modifies this, mem
      ensures reply == Serve(old(Contents()), length, Send(x, to)).reply
      ensures waiting == if reply == Sent then Counted(size, old(waiting), to) else old(waiting)
      ensures Valid() <==> Fitting(Send(x, to), length, size) || old(waiting) == 0
      ensures Valid() ==> Contents() == Serve(old(Contents()), length, Send(x, to)).items
    {
      if waiting < length || to == Overwriting {
        CopyIn(x, to);
        reply := Sent;
      } else {
        reply := Full;
      }
    }

    /** xQueueReceive, where it does not block. */
    method Fetch() returns (reply: Reply)
      requires Valid()
      modifies this
      ensures Valid() && reply == Serve(old(Contents()), length, Receive).reply
      ensures Contents() == Serve(old(Contents()), length, Receive).items
    {
      if waiting > 0 {
        if size > 0 {
          WindowPop(slots, r, waiting);
          AlignedPop(length, r, w, waiting);
        }
        var x := CopyOut();
        r := Wrap(r + 1, length);
        waiting := waiting - 1;
        reply := Got(x);
      } else {
        reply := Empty;
      }
    }

    /** xQueuePeek, where it does not block: the read position is put back. */
    method Look() returns (reply: Reply)
      requires Valid()
      modifies this`readFrom
      ensures Valid() && readFrom == old(readFrom) && Contents() == old(Contents())
      ensures reply == Serve(Contents(), length, Peek).reply
    {
      if waiting > 0 {
        var original := readFrom;
        var x := CopyOut();
        readFrom := original;
        reply := Got(x);
      } else {
        reply := Empty;
      }
    }

    method Do(op: Op) returns (reply: Reply)
      requires Valid() && Fitting(op, length, size)
      modifies this, mem
      ensures Valid()
      ensures Deque(Contents(), reply) == Serve(old(Contents()), length, op)
    {
      match op
      case Send(x, to) =>
        reply := Post(x, to);
      case Receive =>
        reply := Fetch();
      case Peek =>
        reply := Look();
      case Reset =>
        Clear();
        reply := Done;
    }

    /** Any run of calls on the byte ring answers as the bounded deque does. */
    method Run(ops: seq<Op>) returns (replies: seq<Reply>)
      requires Valid() && AllFitting(ops, length, size)
      modifies this, mem
      ensures Valid()
      ensures (Contents(), replies) == ServeAll(old(Contents()), length, ops)
    {
      hide Serve, Accepted, Taken, Fitting, Ring.Valid;
      replies := [];
      for i := 0 to |ops|
        invariant Valid()
        invariant (Contents(), replies) == ServeAll(old(Contents()), length, ops[..i])
      {
        RunStep(old(Contents()), length, ops[..i], ops[i]);
        assert ops[..i + 1] == ops[..i] + [ops[i]];
        var reply := Do(ops[i]);
        replies := replies + [reply];
      }
      assert ops[..|ops|] == ops;
    }
  }

  /** A binary semaphore that is given, and then overwritten while it is full, counts two. */
  method OverwrittenTwice() returns (q: Ring, first: Reply, second: Reply)
    ensures q.length == 1 && q.size == 0 && first == Sent && second == Sent && q.waiting == 2 && !q.Valid()
  {
    q := new Ring(1, 0);
    first := q.Post([], ToBack);
    second := q.Post([], Overwriting);
  }

  function Zeros(n: nat): (z: Item)
    ensures |z| == n
  {
    seq(n, _ => 0)
  }

  lemma {:induction false} ZeroSlots(mem: seq<Byte>, length: nat, size: nat)
    requires |mem| == length * size && forall i :: 0 <= i < |mem| ==> mem[i] == 0
    ensures Holds(mem, size, seq(length, _ => Zeros(size)))
  {
    var slots := seq(length, _ => Zeros(size));
    forall k | 0 <= k < length
      ensures Sits(mem, size, slots[k], k)
    {
      SlotOrder(k, length, size);
      assert mem[k * size..k * size + size] == Zeros(size);
    }
  }
}
