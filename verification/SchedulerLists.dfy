/**
 * The linked lists of KernelList are the ready lists that Scheduler reasons about: a list of
 * tasks and the position of its index.
 */
module SchedulerLists {
  import opened KernelList
  import opened Scheduler

  /** The task of each item. */
  function Owners(items: seq<Item>, owner: map<Item, Task>): (r: seq<Task>)
    requires forall x :: x in items ==> x in owner
    ensures |r| == |items| && forall i :: 0 <= i < |r| ==> r[i] == owner[items[i]]
  {
    seq(|items|, i requires 0 <= i < |items| => owner[items[i]])
  }

  /** Every item is owned, and no two by the same task. */
  ghost predicate Owned(items: seq<Item>, owner: map<Item, Task>) {
    && (forall x :: x in items ==> x in owner)
    && forall i, j :: 0 <= i < j < |items| ==> owner[items[i]] != owner[items[j]]
  }

  ghost function ReadyOf(l: List, owner: map<Item, Task>): ReadyList
    requires l.Valid() && forall x :: x in l.Items() ==> x in owner
    reads l, l.ring
  {
    ReadyList(Owners(l.Items(), owner), PosOf(l.ring, l.index))
  }

  lemma {:induction false} OwnersInsert(items: seq<Item>, k: nat, x: Item, owner: map<Item, Task>)
    requires k <= |items| && x in owner && forall y :: y in items ==> y in owner
    ensures (forall y :: y in InsertAt(items, k, x) ==> y in owner)
    ensures Owners(InsertAt(items, k, x), owner) == InsertAt(Owners(items, owner), k, owner[x])
  {
  }

  lemma {:induction false} OwnersRemove(items: seq<Item>, k: nat, owner: map<Item, Task>)
    requires k < |items| && forall y :: y in items ==> y in owner
    ensures (forall y :: y in RemoveAt(items, k) ==> y in owner)
    ensures Owners(RemoveAt(items, k), owner) == RemoveAt(Owners(items, owner), k)
  {
  }

  lemma {:induction false} OwnerPos(items: seq<Item>, x: Item, owner: map<Item, Task>)
    requires x in items && Owned(items, owner)
    ensures owner[x] in Owners(items, owner) && PosOf(Owners(items, owner), owner[x]) == PosOf(items, x)
  {
    var k, tasks := PosOf(items, x), Owners(items, owner);
    assert tasks[k] == owner[x];
  }

  /** A position that is named by a node is the only one it has. */
  lemma {:induction false} OnlyPos(ring: seq<Item>, p: nat)
    requires p < |ring| && NoDup(ring)
    ensures PosOf(ring, ring[p]) == p
  {
  }

  /** Where a node is once node k + 1 has gone, the one before it standing in for that node itself. */
  lemma {:induction false} PosLeft(ring: seq<Item>, k: nat, p: nat)
    requires k + 1 < |ring| && p < |ring| && NoDup(RemoveAt(ring, k + 1))
    ensures var at := if p > k then p - 1 else p;
            PosOf(RemoveAt(ring, k + 1), if p == k + 1 then ring[k] else ring[p]) == at
  {
    var at := if p > k then p - 1 else p;
    OnlyPos(RemoveAt(ring, k + 1), at);
  }

  lemma {:induction false} RingDistinct(l: List)
    requires l.Valid()
    ensures NoDup(l.ring) && l.index in l.ring && |l.ring| > 0 && l.Items() == l.ring[1..]
    ensures l.count == |l.Items()|
  {
  }

  /** vListInsertEnd on a ready list. */
  method ReadyInsert(l: List, x: Item, ghost owner: map<Item, Task>)
    requires l.Valid() && x !in l.ring && x.value <= MAX_VALUE && x in owner && forall y :: y in l.Items() ==>
             y in owner
    modifies l, l.ring, x
    ensures l.Valid() && (forall y :: y in l.Items() ==> y in owner)
    ensures ReadyOf(l, owner) == RingInsert(old(ReadyOf(l, owner)), owner[x])
  {
    ghost var r, p, items := l.ring, PosOf(l.ring, l.index), l.Items();
    ghost var q := if p == 0 then |r| - 1 else p - 1;
    l.InsertEnd(x);
    TailInsert(r, q, x);
    OwnersInsert(items, q, x, owner);
    OnlyPos(l.ring, if p == 0 then 0 else p + 1);
  }

  /** uxListRemove on a ready list. */
  method ReadyRemove(l: List, x: Item, ghost owner: map<Item, Task>) returns (left: nat)
    requires l.Valid() && x in l.Items() && Owned(l.Items(), owner)
    modifies l, l.ring
    ensures l.Valid() && (forall y :: y in l.Items() ==> y in owner) && left == |l.Items()|
    ensures owner[x] in old(ReadyOf(l, owner)).items
    ensures ReadyOf(l, owner) == RingRemove(old(ReadyOf(l, owner)), owner[x])
  {
    hide List.Valid, NoDup, RemoveAt, PosOf, Owned, List.Items;
    RingDistinct(l);
    ghost var r, p, items := l.ring, PosOf(l.ring, l.index), l.Items();
    ghost var k := PosOf(items, x);
    OwnerPos(items, x, owner);
    AllOwned(items, owner);
    left := l.Remove(x);
    RingDistinct(l);
    OwnersRemove(items, k, owner);
    SamePos(r, k + 1, p, x);
    PosLeft(r, k, p);
    Leftover(r, k + 1);
  }

  lemma {:induction false} AllOwned(items: seq<Item>, owner: map<Item, Task>)
    requires Owned(items, owner)
    ensures forall x :: x in items ==> x in owner
  {
  }

  lemma {:induction false} SamePos(ring: seq<Item>, k: nat, p: nat, x: Item)
    requires k < |ring| && p < |ring| && NoDup(ring) && ring[k] == x
    ensures ring[p] == x <==> p == k
  {
  }

  lemma {:induction false} Leftover(ring: seq<Item>, k: nat)
    requires k < |ring|
    ensures |RemoveAt(ring, k)| == |ring| - 1
  {
  }

  /** listGET_OWNER_OF_NEXT_ENTRY on a ready list. */
  method ReadyNext(l: List, ghost owner: map<Item, Task>) returns (x: Item)
    requires l.Valid() && l.count > 0 && forall y :: y in l.Items() ==> y in owner
    modifies l`index
    ensures l.Valid() && x in l.Items() && l.Items() == old(l.Items())
    ensures var before, at := old(ReadyOf(l, owner)), NextPos(old(ReadyOf(l, owner)).at, |old(l.Items())| + 1);
            ReadyOf(l, owner) == before.(at := at) && 1 <= at <= |before.items| && owner[x] == before.items[at - 1]
  {
    ghost var p := PosOf(l.ring, l.index);
    x := l.Next();
    OnlyPos(l.ring, NextPos(p, |l.ring|));
  }
}
