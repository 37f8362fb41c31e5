/**
 * The circular doubly linked list of FreeRTOS/Source/list.c.
 *
 * The sentinel and the items form a ring; `ring` is that ring as a sequence, the
 * sentinel first.  Every operation is specified by what it does to the sequence.
 */
module KernelList {
  /** portMAX_DELAY, the value of the sentinel. */
  const MAX_VALUE: nat := 0xffff_ffff

  class Item {
    var value: nat
    var next: Item?
    var prev: Item?
    var container: List?

    /** vListInitialiseItem */
    constructor (value: nat)
      ensures this.value == value && container == null
    {
      this.value, next, prev, container := value, null, null, null;
    }
  }

  /** The index after i in a ring of n. */
  function Succ(i: nat, n: nat): nat {
    if i + 1 == n then 0 else i + 1
  }

  ghost predicate NoDup<T>(s: seq<T>) {
    forall i, j :: 0 <= i < j < |s| ==> s[i] != s[j]
  }

  /** Next and previous pointers follow the sequence and close it to a ring. */
  ghost predicate Linked(ring: seq<Item>)
    reads ring
  {
    && (forall i :: 0 <= i < |ring| ==> ring[i].next == ring[Succ(i, |ring|)])
    && (forall i :: 0 <= i < |ring| ==> ring[Succ(i, |ring|)].prev == ring[i])
  }

  /** The position of x in s. */
  function PosOf<T(==)>(s: seq<T>, x: T): (k: nat)
    requires x in s
    ensures k < |s| && s[k] == x
    ensures forall i :: 0 <= i < k ==> s[i] != x
  {
    if s[0] == x then 0 else 1 + PosOf(s[1..], x)
  }

  function InsertAt<T>(s: seq<T>, k: nat, x: T): seq<T>
    requires k <= |s|
  {
    s[..k] + [x] + s[k..]
  }

  function RemoveAt<T>(s: seq<T>, k: nat): seq<T>
    requires k < |s|
  {
    s[..k] + s[k + 1..]
  }

  /** The nodes are distinct, the first is the sentinel, and the others belong to the list. */
  ghost predicate Held(l: List, ring: seq<Item>)
    reads ring
  {
    && |ring| > 0 && ring[0] == l.end && NoDup(ring)
    && (forall i :: 0 <= i < |ring| ==> ring[i].value <= MAX_VALUE && ring[i].container == if i == 0 then null else l)
    && ring[0].value == MAX_VALUE
  }

  /** Linked, except for the link from node q to the one after it. */
  ghost predicate LinkedBut(ring: seq<Item>, q: nat)
    reads ring
  {
    && (forall i :: 0 <= i < |ring| && i != q ==> ring[i].next == ring[Succ(i, |ring|)])
    && (forall i :: 0 <= i < |ring| && i != q ==> ring[Succ(i, |ring|)].prev == ring[i])
  }

  class List {
    const end: Item
    var index: Item
    var count: nat
    ghost var ring: seq<Item>

    ghost predicate Valid()
      reads this, ring
    {
      && Linked(ring) && Held(this, ring) && index in ring && count == |ring| - 1
    }

    /** The items in list order. */
    ghost function Items(): seq<Item>
      reads this
      requires |ring| > 0
    {
      ring[1..]
    }

    /** vListInitialise */
    constructor ()
      ensures Valid() && Items() == [] && fresh(end) && index == end
    {
      var e := new Item(MAX_VALUE);
      end, index, count, ring := e, e, 0, [e];
      new;
      e.next, e.prev := e, e;
    }

    /** vListInsertEnd: the new item goes right before the index, so a walk reaches it last. */
    method InsertEnd(x: Item)
      requires Valid() && x !in ring && x.value <= MAX_VALUE
      modifies this, ring, x
      ensures Valid() && index == old(index) && count == old(count) + 1
      ensures ring
              == InsertAt(old(ring), if PosOf(old(ring), index) == 0 then |old(ring)| else PosOf(old(ring), index), x)
      ensures x.value == old(x.value) && forall y :: y in old(ring) ==> y.value == old(y.value)
    {
      hide Valid, PosOf, InsertAt, Linked, LinkedBut, Held;
      ghost var r := ring;
      ghost var q := BeforeIndex();
      RewireBefore(index, x, q);
      count := count + 1;
      ring := InsertAt(ring, q + 1, x);
      StillValid(this, r, q, x);
    }

    /** The four links and the container that putting x in front of it writes. */
    method RewireBefore(it: Item, x: Item, ghost q: nat)
      requires q < |ring| && it == ring[Succ(q, |ring|)] && it in ring && it.prev in ring && it.prev == ring[q]
      requires Linked(ring) && Held(this, ring) && Apart(ring, q) && x !in ring
      modifies ring, x
      ensures LinkedBut(ring, q) && Held(this, ring)
      ensures ring[q].next == x && x.prev == ring[q] && x.next == it && it.prev == x && x.container == this
      ensures x.value == old(x.value) && forall y :: y in ring ==> y.value == old(y.value)
    {
      hide NoDup;
      x.next := it;
      x.prev := it.prev;
      it.prev.next := x;
      it.prev := x;
      x.container := this;
    }

    /** The node after which a value belongs: behind everything that is not greater. */
    method FindSpot(v: nat) returns (it: Item, ghost q: nat)
      requires Valid() && v <= MAX_VALUE
      ensures q < |ring| && it == ring[q] && q == UpTo(Values(Items()), v)
    {
      if v == MAX_VALUE {
        q := |ring| - 1;
        Neighbours(ring, q);
        it := end.prev;
        return;
      }
      it, q := end, 0;
      Neighbours(ring, q);
      while it.next.value <= v
        invariant 0 <= q < |ring| && it == ring[q] && it.next == ring[Succ(q, |ring|)]
        invariant forall i :: 1 <= i <= q ==> ring[i].value <= v
        decreases |ring| - q
      {
        it := it.next;
        q := q + 1;
        Neighbours(ring, q);
      }
      assert q + 1 < |ring| ==> Values(Items())[q] == ring[q + 1].value;
    }

    /** Links x in behind the node `it`, which is node q of the ring. */
    method LinkAfter(it: Item, x: Item, ghost q: nat)
      requires Valid() && x !in ring && x.value <= MAX_VALUE && q < |ring| && it == ring[q]
      modifies this, ring, x
      ensures Valid() && index == old(index) && count == old(count) + 1 && ring == InsertAt(old(ring), q + 1, x)
      ensures x.value == old(x.value) && forall y :: y in old(ring) ==> y.value == old(y.value)
    {
      hide Valid, InsertAt, Linked, LinkedBut, Held;
      ghost var r := ring;
      After(q);
      Rewire(it, x, q);
      count := count + 1;
      ring := InsertAt(ring, q + 1, x);
      StillValid(this, r, q, x);
    }

    /** The four links and the container that putting x behind it writes. */
    method Rewire(it: Item, x: Item, ghost q: nat)
      requires q < |ring| && it == ring[q] && it in ring && it.next in ring && it.next == ring[Succ(q, |ring|)]
      requires Linked(ring) && Held(this, ring) && Apart(ring, q) && x !in ring
      modifies ring, x
      ensures LinkedBut(ring, q) && Held(this, ring)
      ensures it.next == x && x.prev == it && x.next == ring[Succ(q, |ring|)] && x.next.prev == x && x.container == this
      ensures x.value == old(x.value) && forall y :: y in ring ==> y.value == old(y.value)
    {
      hide NoDup;
      x.next := it.next;
      x.next.prev := x;
      x.prev := it;
      it.next := x;
      x.container := this;
    }

    /** vListInsert: in order of value, behind items with the same value. */
    method Insert(x: Item)
      requires Valid() && x !in ring && x.value <= MAX_VALUE
      modifies this, ring, x
      ensures Valid() && index == old(index) && count == old(count) + 1
      ensures UpTo(old(Values(Items())), old(x.value)) <= |old(Items())|
      ensures Items() == InsertAt(old(Items()), UpTo(old(Values(Items())), old(x.value)), x)
      ensures x.value == old(x.value) && forall y :: y in old(ring) ==> y.value == old(y.value)
    {
      hide *;
      ghost var r := ring;
      ghost var items := Tail();
      var it;
      ghost var q;
      it, q := FindSpot(x.value);
      After(q);
      LinkAfter(it, x, q);
      TailInsert(r, q, x);
      TailIs(InsertAt(items, q, x));
    }

    lemma {:induction false} After(q: nat)
      requires Valid() && q < |ring|
      ensures ring[q].next == ring[Succ(q, |ring|)] && ring[q] in ring && ring[Succ(q, |ring|)] in ring && |ring| > 0
      ensures |Values(Items())| == |Items()|
      ensures Linked(ring) && Held(this, ring) && count + 1 == |ring| && index in ring && Apart(ring, q)
    {
    }

    /** uxListRemove, for an item whose container is this list. */
    method Remove(x: Item) returns (left: nat)
      requires Valid() && x in Items()
      modifies this, ring
      ensures Valid() && left == count == old(count) - 1 && x.container == null
      ensures Items() == RemoveAt(old(Items()), PosOf(old(Items()), x))
      ensures PosOf(old(Items()), x) + 1 < |old(ring)| && ring == RemoveAt(old(ring), PosOf(old(Items()), x) + 1)
      ensures index == if old(index) == x then old(ring)[PosOf(old(Items()), x)] else old(index)
      ensures forall y :: y in old(ring) ==> y.value == old(y.value)
    {
      hide Valid, NoDup, PosOf, InsertAt, RemoveAt, Values, UpTo, Items, Linked, Held, Succ;
      ghost var r := ring;
      ghost var items := Tail();
      ghost var p := Around(x);
      x.next.prev := x.prev;
      x.prev.next := x.next;
      if index == x {
        index := x.prev;
      }
      x.container := null;
      count := count - 1;
      ring := RemoveAt(ring, p);
      LeftValid(this, r, p);
      TailRemove(r, p);
      TailIs(RemoveAt(items, p - 1));
      return count;
    }

    /** Removing an item that has just been inserted in order gives back the list, index and all. */
    method InsertAndRemove(x: Item)
      requires Valid() && x !in ring && x.value <= MAX_VALUE
      modifies this, ring, x
      ensures Valid() && Items() == old(Items()) && index == old(index) && count == old(count) && x.container == null
      ensures x.value == old(x.value) && forall y :: y in old(ring) ==> y.value == old(y.value)
    {
      hide NoDup, PosOf, RemoveAt, Values, UpTo, Linked;
      ghost var items, k := Items(), UpTo(Values(Items()), x.value);
      Insert(x);
      RemoveUndoesInsert(items, k, x);
      var left := Remove(x);
    }

    /** So does removing one that has just been put in before the index. */
    method InsertEndAndRemove(x: Item)
      requires Valid() && x !in ring && x.value <= MAX_VALUE
      modifies this, ring, x
      ensures Valid() && Items() == old(Items()) && index == old(index) && count == old(count) && x.container == null
      ensures x.value == old(x.value) && forall y :: y in old(ring) ==> y.value == old(y.value)
    {
      hide Valid, NoDup, PosOf, RemoveAt, Values, UpTo, Linked, Held;
      ghost var r := ring;
      ghost var items := Tail();
      ghost var q := BeforeIndex();
      InsertEnd(x);
      TailInsert(r, q, x);
      RemoveUndoesInsert(items, q, x);
      TailIs(InsertAt(items, q, x));
      var left := Remove(x);
    }

    lemma {:induction false} Around(x: Item) returns (p: nat)
      requires Valid() && x in Items()
      ensures 1 <= p < |ring| && ring[p] == x && p == PosOf(Items(), x) + 1 && count > 0
      ensures x.next == ring[Succ(p, |ring|)] && x.prev == ring[p - 1]
      ensures ring[Succ(p, |ring|)] in ring && ring[p - 1] in ring && x in ring
      ensures Linked(ring) && Held(this, ring) && count + 1 == |ring| && index in ring && Apart(ring, p)
      ensures Apart(ring, p - 1)
    {
      p := PosOf(Items(), x) + 1;
      Neighbours(ring, p);
      Neighbours(ring, p - 1);
    }

    /** listGET_OWNER_OF_NEXT_ENTRY: moves the index to the next item, passing over the sentinel. */
    method Next() returns (x: Item)
      requires Valid() && count > 0
      modifies this`index
      ensures Valid() && x == index && x in Items()
      ensures x == ring[NextPos(PosOf(ring, old(index)), |ring|)]
    {
      ghost var p := PosOf(ring, index);
      Neighbours(ring, p);
      Neighbours(ring, 0);
      index := index.next;
      if index == end {
        index := index.next;
      }
      x := index;
      assert x == Items()[NextPos(p, |ring|) - 1];
    }

    lemma {:induction false} Tail() returns (items: seq<Item>)
      requires Valid()
      ensures |ring| > 0 && items == ring[1..] == Items()
    {
      items := ring[1..];
    }

    lemma {:induction false} TailIs(items: seq<Item>)
      requires |ring| > 0 && items == ring[1..]
      ensures Items() == items
    {
    }

    /** The node before the index. */
    lemma {:induction false} BeforeIndex() returns (q: nat)
      requires Valid()
      ensures q < |ring| && q + 1 == if PosOf(ring, index) == 0 then |ring| else PosOf(ring, index)
      ensures index in ring && index == ring[Succ(q, |ring|)] && index.prev == ring[q] && ring[q] in ring
      ensures Linked(ring) && Held(this, ring) && count + 1 == |ring| && index in ring && Apart(ring, q)
    {
      var p := PosOf(ring, index);
      q := if p == 0 then |ring| - 1 else p - 1;
      Neighbours(ring, q);
    }
  }

  /** Different nodes differ, and so do the ones after them. */
  ghost predicate Apart(ring: seq<Item>, q: nat) {
    q < |ring| && forall i :: 0 <= i < |ring| && i != q ==>
        ring[i] != ring[q] && ring[Succ(i, |ring|)] != ring[Succ(q, |ring|)]
  }

  /** Linking in a node and taking it over keeps the list well formed. */
  lemma {:induction false} StillValid(l: List, r: seq<Item>, q: nat, x: Item)
    requires LinkedBut(r, q) && Held(l, r) && x !in r && q < |r| && l.ring == InsertAt(r, q + 1, x)
    requires r[q].next == x && x.prev == r[q] && r[Succ(q, |r|)].prev == x && x.next == r[Succ(q, |r|)]
    requires x.container == l && x.value <= MAX_VALUE && l.count == |r| && l.index in r
    ensures l.Valid()
  {
    hide Linked, LinkedBut;
    Spliced(r, q, x);
    Inserted(r, q + 1, x);
  }

  ghost function Values(items: seq<Item>): (s: seq<nat>)
    reads items
    ensures |s| == |items|
    ensures forall i :: 0 <= i < |s| ==> s[i] == items[i].value
  {
    if items == [] then [] else Values(items[..|items| - 1]) + [items[|items| - 1].value]
  }

  /** The first position that holds more than v, or the end. */
  function UpTo(s: seq<nat>, v: nat): (k: nat)
    ensures k <= |s|
    ensures forall i :: 0 <= i < k ==> s[i] <= v
    ensures k < |s| ==> s[k] > v
  {
    if s == [] || s[0] > v then 0 else 1 + UpTo(s[1..], v)
  }

  ghost predicate Sorted(s: seq<nat>) {
    forall i, j :: 0 <= i < j < |s| ==> s[i] <= s[j]
  }

  /** Inserting in order keeps the order and is stable: the new value follows its equals, which keep their places. */
  lemma {:induction false} InsertSorted(s: seq<nat>, v: nat)
    requires Sorted(s)
    ensures var k := UpTo(s, v);
            && Sorted(InsertAt(s, k, v))
            && (forall i :: 0 <= i < |s| ==> (s[i] <= v <==> i < k))
            && RemoveAt(InsertAt(s, k, v), k) == s
  {
    var k := UpTo(s, v);
    var r := InsertAt(s, k, v);
    assert forall i :: 0 <= i < |s| ==> (s[i] <= v <==> i < k);
    forall i, j | 0 <= i < j < |r|
      ensures r[i] <= r[j]
    {
      InsertedAt(s, k, v, i);
      InsertedAt(s, k, v, j);
    }
  }

  lemma {:induction false} InsertedAt<T>(s: seq<T>, k: nat, x: T, i: nat)
    requires k <= |s| && i <= |s|
    ensures |InsertAt(s, k, x)| == |s| + 1
    ensures InsertAt(s, k, x)[i] == if i < k then s[i] else if i == k then x else s[i - 1]
  {
  }

  /** Removing what was inserted gives back the list. */
  lemma {:induction false} RemoveUndoesInsert<T>(s: seq<T>, k: nat, x: T)
    requires k <= |s| && x !in s
    ensures x in InsertAt(s, k, x) && PosOf(InsertAt(s, k, x), x) == k && RemoveAt(InsertAt(s, k, x), k) == s
  {
    var t := InsertAt(s, k, x);
    assert t[k] == x;
    assert forall i :: 0 <= i < k ==> t[i] == s[i];
  }

  /** The position a walk goes to from position p of a ring of n. */
  function NextPos(p: nat, n: nat): nat {
    if p + 1 < n then p + 1 else 1
  }

  function Walk(p: nat, n: nat, steps: nat): nat {
    if steps == 0 then p else NextPos(Walk(p, n, steps - 1), n)
  }

  /** A walk visits the items in turn: from item p, the m items come up once each in m steps, p itself last. */
  lemma {:induction false} WalkVisits(p: nat, n: nat, steps: nat)
    requires 1 <= p < n && steps <= n - 1
    ensures Walk(p, n, steps) == if p + steps < n then p + steps else p + steps - (n - 1)
  {
    if steps > 0 {
      WalkVisits(p, n, steps - 1);
    }
  }

  lemma {:induction false} TailInsert(r: seq<Item>, q: nat, x: Item)
    requires q < |r|
    ensures |InsertAt(r, q + 1, x)| > 0 && InsertAt(r, q + 1, x)[1..] == InsertAt(r[1..], q, x)
  {
  }

  lemma {:induction false} TailRemove(r: seq<Item>, p: nat)
    requires 1 <= p < |r|
    ensures |RemoveAt(r, p)| > 0 && RemoveAt(r, p)[1..] == RemoveAt(r[1..], p - 1)
  {
  }

  /** Unlinking node p closes the gap. */
  lemma {:induction false} Unspliced(ring: seq<Item>, p: nat)
    requires 1 <= p < |ring|
    requires forall i :: 0 <= i < |ring| && i != p && i != p - 1 ==>
             ring[i].next == ring[Succ(i, |ring|)] && ring[Succ(i, |ring|)].prev == ring[i]
    requires ring[p - 1].next == ring[Succ(p, |ring|)] && ring[Succ(p, |ring|)].prev == ring[p - 1]
    ensures Linked(RemoveAt(ring, p))
  {
    var r := RemoveAt(ring, p);
    forall i | 0 <= i < |r|
      ensures r[i].next == r[Succ(i, |r|)] && r[Succ(i, |r|)].prev == r[i]
    {
      var j := if i < p then i else i + 1;
      assert r[i] == ring[j] && (i != p - 1 ==> r[Succ(i, |r|)] == ring[Succ(j, |ring|)]);
    }
  }

  /** Unlinking an item keeps the list well formed. */
  lemma {:induction false} LeftValid(l: List, r: seq<Item>, p: nat)
    requires 1 <= p < |r| && l.ring == RemoveAt(r, p) && r[0] == l.end && NoDup(r) && r[0].value == MAX_VALUE
    requires forall i :: 0 <= i < |r| && i != p && i != p - 1 ==>
             r[i].next == r[Succ(i, |r|)] && r[Succ(i, |r|)].prev == r[i]
    requires forall i :: 0 <= i < |r| && i != p ==>
             r[i].value <= MAX_VALUE && r[i].container == if i == 0 then null else l
    requires r[p - 1].next == r[Succ(p, |r|)] && r[Succ(p, |r|)].prev == r[p - 1]
    requires l.count == |r| - 2 && l.index in r && l.index != r[p]
    ensures l.Valid()
  {
    hide Linked;
    Unspliced(r, p);
    assert forall i :: 0 <= i < p ==> l.ring[i] == r[i];
    assert forall i :: p <= i < |l.ring| ==> l.ring[i] == r[i + 1];
    var i := PosOf(r, l.index);
    assert i < p ==> l.ring[i] == r[i];
    assert i > p ==> l.ring[i - 1] == r[i];
  }

  lemma {:induction false} Neighbours(ring: seq<Item>, q: nat)
    requires Linked(ring) && q < |ring|
    ensures ring[q].next == ring[Succ(q, |ring|)] && ring[Succ(q, |ring|)].prev == ring[q]
  {
  }

  lemma {:induction false} Inserted(ring: seq<Item>, k: nat, x: Item)
    requires NoDup(ring) && x !in ring && 0 < k <= |ring|
    ensures var r := InsertAt(ring, k, x);
            && NoDup(r) && r[0] == ring[0] && |r| == |ring| + 1 && r[k] == x
            && (forall y :: y in r <==> y in ring || y == x)
            && (forall i :: 1 <= i < |r| ==> r[i] == x || exists j :: 1 <= j < |ring| && ring[j] == r[i])
  {
    var r := InsertAt(ring, k, x);
    assert forall i :: 0 <= i < k ==> r[i] == ring[i];
    assert forall i :: k < i < |r| ==> r[i] == ring[i - 1];
    forall y | y in ring
      ensures y in r
    {
      var i := PosOf(ring, y);
      assert r[if i < k then i else i + 1] == y;
    }
    assert r[k] == x;
  }

  /** Rewiring the two neighbours of the gap behind node q puts x there. */
  lemma {:induction false} Spliced(ring: seq<Item>, q: nat, x: Item)
    requires LinkedBut(ring, q) && q < |ring|
    requires ring[q].next == x && x.prev == ring[q]
    requires ring[Succ(q, |ring|)].prev == x && x.next == ring[Succ(q, |ring|)]
    ensures Linked(InsertAt(ring, q + 1, x))
  {
    var r, n := InsertAt(ring, q + 1, x), |ring|;
    assert r[q + 1] == x;
    forall i | 0 <= i < |r|
      ensures r[i].next == r[Succ(i, |r|)] && r[Succ(i, |r|)].prev == r[i]
    {
      var j := if i <= q then i else i - 1;
      assert i != q + 1 ==> r[i] == ring[j];
      assert i != q ==> r[Succ(i, |r|)] == ring[Succ(j, n)];
    }
  }
}
