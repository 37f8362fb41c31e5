/**
 * Where sysparam_set_data falls short of a map update, and exactly when.
 */
module SysparamFaults {
  import opened Bytes
  import opened Flash
  import opened SysparamLog
  import opened SysparamTable
  import opened SysparamPack
  import opened SysparamBoot
  import opened SysparamPlan

  /**
   * Whatever the state of the log, a write acts as a map update if and only if it is
   * not misplaced and no older second value comes to light.
   */
  lemma {:induction false} WriteExact(t: Rows, r: int, key: Data, v: Value, compacted: bool)
    requires Distinct(t) && r == RowOf(t, key)
    requires r >= 0 && t[r].values != [] ==> t[r].values[0] != v
    ensures View(AfterWrite(t, r, key, v, compacted)) == View(t)[key := v]
       <==> !Misplaced(t, r, compacted) && !(r >= 0 && !compacted && |t[r].values| > 1 && t[r].values[1] != v)
  {
    hide View, AfterWrite, Distinct;
    WriteView(t, r, key, v, compacted);
    var m := View(t);
    assert m[key := v][key] == v;
    if r >= 0 && |t[r].values| > 1 {
      assert m[key := t[r].values[1]][key] == t[r].values[1];
    }
  }

  /**
   * A cut between writing a new value and deleting the old one leaves both alive.
   * The old one is still shown, but the next set that does not compact brings up the
   * value of the interrupted one instead of its own.
   */
  lemma {:induction false} InterruptedValueReturns(t: Rows, r: nat, v: Value, w: Value)
    requires Distinct(t) && r < |t| && |t[r].values| == 1 && v != t[r].values[0] && w != t[r].values[0]
    ensures var t' := AddValue(t, r, v);
            && View(t') == View(t) && RowOf(t', t[r].key) == r
            && View(AfterWrite(t', r, t[r].key, w, false)) == View(t')[t[r].key := v]
            && View(AfterWrite(t', r, t[r].key, w, true)) == View(t')[t[r].key := w]
  {
    hide View;
    var t' := AddValue(t, r, v);
    SecondUnseen(t, r, v);
    assert Distinct(t');
    RowUnique(t', r);
    WriteView(t', r, t[r].key, w, false);
    WriteView(t', r, t[r].key, w, true);
  }

  /** A refused set leaves the parameters alone if and only if the key had no value or no key was unused. */
  lemma {:induction false} RefusalLoses(log0: seq<Entry>, size: nat, force: bool, key: Data, v: Value, log1: seq<Entry>)
    requires Settled(log0) && LogOk(log0) && WellFormed(log1) && SetDone(log0, size, force, key, v, ErrFull, log1)
    ensures View(Table(log1)) == View(Table(log0)) <==> key !in View(Table(log0)) || !HasUnused(Table(log0))
  {
    hide *;
    RefusedSpace(log0, size, force, key, v, log1);
    SetRefines(log0, size, force, key, v, ErrFull, log1);
    FullExact(log0, size, force, key, v.data);
    MinusKey(View(Table(log0)), key);
  }

  lemma {:induction false} RefusedSpace(log0: seq<Entry>, size: nat, force: bool, key: Data, v: Value, log1: seq<Entry>)
    requires SetDone(log0, size, force, key, v, ErrFull, log1)
    ensures PlanSet(log0, size, force, key, v.data).Full?
  {
  }

  lemma {:induction false} MinusKey(m: map<Data, Value>, key: Data)
    ensures m - {key} == m <==> key !in m
  {
    assert key !in m ==> m - {key} == m;
    assert key in m ==> key !in m - {key};
  }

  // ------------------------------------------------------------------ torn sets

  /** Some cut shows neither the old nor the new parameters. */
  ghost predicate Torn(h: seq<seq<Byte>>, h0: seq<seq<Byte>>, a: Area, m0: map<Data, Value>, m1: map<Data, Value>) {
    exists i :: |h0| <= i < |h| && !ShowsMap(h[i], a, m0) && !ShowsMap(h[i], a, m1)
  }

  lemma {:induction false} ShowsOne(mem: seq<Byte>, a: Area, f: Face, m: map<Data, Value>)
    requires Shows(mem, a, f)
    ensures ShowsMap(mem, a, m) <==> f.m == m
  {
    hide Sound, BootLog, BootBase, FaceOf;
    assert f == Face(f.m, f.tidy);
  }

  lemma {:induction false} TornCuts(h: seq<seq<Byte>>, h0: seq<seq<Byte>>, a: Area, key: Data, compacts: bool,
                                    f0: Face, f1: Face, k1: nat, k2: nat)
    requires SetCuts(h, h0, a, key, compacts, f0, f1, k1, k2) && (compacts && key in f0.m ==> key in f1.m)
    ensures Torn(h, h0, a, f0.m, f1.m) <==> compacts && key in f0.m
  {
    hide Shows, ShowsMap;
    if compacts && key in f0.m {
      ShowsOne(h[k1], a, Middle(f0, key, true), f0.m);
      ShowsOne(h[k1], a, Middle(f0, key, true), f1.m);
      assert key !in f0.m - {key};
    } else {
      assert key !in f0.m ==> f0.m - {key} == f0.m;
      forall i | |h0| <= i < |h|
        ensures ShowsMap(h[i], a, f0.m) || ShowsMap(h[i], a, f1.m)
      {
        if i < k1 {
          ShowsOne(h[i], a, f0, f0.m);
        } else if i < k2 {
          ShowsOne(h[i], a, Middle(f0, key, compacts), f0.m);
        } else {
          ShowsOne(h[i], a, f1, f1.m);
        }
      }
    }
  }

  /**
   * A successful set is torn by some power cut if and only if it compacts and the key had a
   * value before.
   */
  lemma {:induction false} TornExact(log0: seq<Entry>, size: nat, force: bool, key: Data, v: Value, log1: seq<Entry>,
                                     h: seq<seq<Byte>>, h0: seq<seq<Byte>>, a: Area, k1: nat, k2: nat)
    requires WellFormed(log0) && SetDone(log0, size, force, key, v, Ok, log1)
    requires SetCuts(h, h0, a, key, SetCompacts(log0, size, force, key, v), FaceOf(log0), FaceOf(log1), k1,
             k2)
    ensures Torn(h, h0, a, View(Table(log0)), View(Table(log1)))
       <==> SetCompacts(log0, size, force, key, v) && key in View(Table(log0))
  {
    hide SetCuts, Torn, Table, View, PlanSet, WellFormed, AfterWrite;
    if SetCompacts(log0, size, force, key, v) && key in View(Table(log0)) {
      var t := Table(log0);
      var r := RowOf(t, key);
      DistinctKeys(log0);
      KeyHasValue(t, key);
      WriteExact(t, r, key, v, true);
    }
    TornCuts(h, h0, a, key, SetCompacts(log0, size, force, key, v), FaceOf(log0), FaceOf(log1), k1, k2);
  }

  lemma {:induction false} KeyHasValue(t: Rows, key: Data)
    requires Distinct(t) && key in View(t)
    ensures RowOf(t, key) >= 0 && t[RowOf(t, key)].values != []
  {
    var r := RowOf(t, key);
    if r >= 0 {
      ViewOfRow(t, r);
    } else {
      ViewOfNothing(t, key);
    }
  }

  // ------------------------------------------------------- a value that gets lost

  const FIRST_KEY: Data := [1]
  const OTHER_KEY: Data := [2]
  const OTHER_VALUE := Value([7], true)
  const DEAD_SIZE: nat := 4050

  function OneSector(dead: Data): seq<Entry> {
    [KeyEntry(1, FIRST_KEY), Killed(ValueEntry(1, Value(dead, true))), KeyEntry(2, OTHER_KEY),
        ValueEntry(2, OTHER_VALUE)]
  }

  /** The log stands for these rows and takes so many bytes, so many of them dead. */
  ghost predicate Holds(log: seq<Entry>, t: Rows, size: nat, dead: nat) {
    LogOk(log) && WellFormed(log) && Table(log) == t && Size(log) == size && DeadSize(log) == dead && Orphans(log) == 0
  }

  lemma {:induction false} OneEntry(log: seq<Entry>, e: Entry)
    requires LogOk(log) && EntryOk(e)
    ensures LogOk(log + [e]) && Table(log + [e]) == Apply(Table(log), e)
    ensures WellFormed(log + [e]) <==> WellFormed(log) && Fits(Table(log), e)
    ensures Size(log + [e]) == Size(log) + EntrySize(e)
    ensures DeadSize(log + [e]) == DeadSize(log) + if IsLive(e.head) then 0 else EntrySize(e)
    ensures Orphans(log + [e]) == Orphans(log) + if IsOrphan(Table(log), e) then 1 else 0
  {
    assert (log + [e])[..|log|] == log;
  }

  lemma {:induction false} HoldsKey(log: seq<Entry>, t: Rows, size: nat, dead: nat, key: Data)
    requires Holds(log, t, size, dead) && !HasKey(t, key) && |t| < MAX_KEY_ID && |key| <= MAX_LEN
    ensures Holds(log + [KeyEntry(|t| + 1, key)], t + [Row(key, [])], size + 4 + |key|, dead)
  {
    hide LogOk, WellFormed, Table, Size, DeadSize, Orphans;
    OneEntry(log, KeyEntry(|t| + 1, key));
  }

  lemma {:induction false} HoldsValue(log: seq<Entry>, t: Rows, size: nat, dead: nat, r: nat, v: Value)
    requires Holds(log, t, size, dead) && r < |t| <= MAX_KEY_ID && |v.data| <= MAX_LEN
    ensures Holds(log + [ValueEntry(r + 1, v)], AddValue(t, r, v), size + 4 + |v.data|, dead)
  {
    hide LogOk, WellFormed, Table, Size, DeadSize, Orphans;
    OneEntry(log, ValueEntry(r + 1, v));
  }

  lemma {:induction false} HoldsDead(log: seq<Entry>, t: Rows, size: nat, dead: nat, r: nat, v: Value)
    requires Holds(log, t, size, dead) && r < |t| <= MAX_KEY_ID && |v.data| <= MAX_LEN
    ensures Holds(log + [Killed(ValueEntry(r + 1, v))], t, size + 4 + |v.data|, dead + 4 + |v.data|)
  {
    hide LogOk, WellFormed, Table, Size, DeadSize, Orphans;
    OneEntry(log, Killed(ValueEntry(r + 1, v)));
  }

  lemma {:induction false} HoldsNothing()
    ensures Holds([], [], 0, 0)
  {
  }

  lemma {:induction false} Starting(key: Data)
    ensures [] + [KeyEntry(1, key)] == [KeyEntry(1, key)] && [] + [Row(key, [])] == [Row(key, [])]
  {
  }

  lemma {:induction false} FirstRow(v: Value)
    ensures AddValue([Row(FIRST_KEY, [])], 0, v) == [Row(FIRST_KEY, [v])]
    ensures AddValue([Row(FIRST_KEY, []), Row(OTHER_KEY, [])], 1, v) == [Row(FIRST_KEY, []), Row(OTHER_KEY, [v])]
    ensures !HasKey([], FIRST_KEY)
    ensures !HasKey([Row(FIRST_KEY, [])], OTHER_KEY) && !HasKey([Row(FIRST_KEY, [v])], OTHER_KEY)
  {
    var none: seq<Value> := [];
    assert none + [v] == [v];
  }

  lemma {:induction false} OneSectorTable(dead: Data)
    requires |dead| == DEAD_SIZE
    ensures Holds(OneSector(dead), [Row(FIRST_KEY, []), Row(OTHER_KEY, [OTHER_VALUE])], 19 + DEAD_SIZE, 4 + DEAD_SIZE)
  {
    hide Holds, AddValue, HasKey, KeyEntry, ValueEntry, Killed;
    var k1, d := KeyEntry(1, FIRST_KEY), Killed(ValueEntry(1, Value(dead, true)));
    var k2, v2 := KeyEntry(2, OTHER_KEY), ValueEntry(2, OTHER_VALUE);
    var one, two := [Row(FIRST_KEY, [])], [Row(FIRST_KEY, []), Row(OTHER_KEY, [])];
    assert [k1] + [d] == [k1, d] && [k1, d] + [k2] == [k1, d, k2] && [k1, d, k2] + [v2] == OneSector(dead);
    assert one + [Row(OTHER_KEY, [])] == two;
    FirstRow(OTHER_VALUE);
    HoldsNothing();
    Starting(FIRST_KEY);
    HoldsKey([], [], 0, 0, FIRST_KEY);
    HoldsDead([k1], one, 5, 0, 0, Value(dead, true));
    HoldsKey([k1, d], one, 9 + DEAD_SIZE, 4 + DEAD_SIZE, OTHER_KEY);
    HoldsValue([k1, d, k2], two, 14 + DEAD_SIZE, 4 + DEAD_SIZE, 1, OTHER_VALUE);
  }

  /**
   * In a one-sector region that is nearly full of dead bytes, setting a key that has lost
   * its value reports success and stores nothing.
   */
  lemma {:induction false} SuccessStoresNothing(dead: Data, data: Data, log1: seq<Entry>, status: Status)
    requires |dead| == DEAD_SIZE && |data| == 20 && WellFormed(log1)
    requires SetDone(OneSector(dead), SECTOR_SIZE, false, FIRST_KEY, Value(data, true), status, log1)
    ensures Settled(OneSector(dead)) && status == Ok && FIRST_KEY !in View(Table(log1))
    ensures View(Table(log1)) == View(Table(OneSector(dead)))
  {
    var log, v := OneSector(dead), Value(data, true);
    OneSectorTable(dead);
    var t := Table(log);
    hide OneSector, Table, WellFormed, LogOk, DeadSize, Orphans, Size, View, Packed, PackedLog;
    DistinctKeys(log);
    RowUnique(t, 0);
    PackedSmaller(log, 0);
    WriteView(t, 0, FIRST_KEY, v, true);
  }

  // ------------------------------------------------------------- a set that is torn

  function Worn(dead: Data): seq<Entry> {
    [KeyEntry(1, FIRST_KEY), Killed(ValueEntry(1, Value(dead, true))), ValueEntry(1, OTHER_VALUE)]
  }

  lemma {:induction false} WornTable(dead: Data)
    requires |dead| == DEAD_SIZE
    ensures Holds(Worn(dead), [Row(FIRST_KEY, [OTHER_VALUE])], 14 + DEAD_SIZE, 4 + DEAD_SIZE)
  {
    hide Holds, AddValue, HasKey, KeyEntry, ValueEntry, Killed;
    var k1, d, v1 := KeyEntry(1, FIRST_KEY), Killed(ValueEntry(1, Value(dead, true))), ValueEntry(1, OTHER_VALUE);
    var one := [Row(FIRST_KEY, [])];
    assert [k1] + [d] == [k1, d] && [k1, d] + [v1] == Worn(dead);
    FirstRow(OTHER_VALUE);
    HoldsNothing();
    Starting(FIRST_KEY);
    HoldsKey([], [], 0, 0, FIRST_KEY);
    HoldsDead([k1], one, 5, 0, 0, Value(dead, true));
    HoldsValue([k1, d], one, 9 + DEAD_SIZE, 4 + DEAD_SIZE, 0, OTHER_VALUE);
  }

  /** In a region nearly full of dead bytes, replacing the value of a key leaves a cut at which the key has none. */
  lemma {:induction false} TornSet(dead: Data, data: Data, log1: seq<Entry>, status: Status,
                                   h: seq<seq<Byte>>, h0: seq<seq<Byte>>, a: Area, k1: nat, k2: nat)
    requires |dead| == DEAD_SIZE && |data| == 30
    requires SetDone(Worn(dead), SECTOR_SIZE, false, FIRST_KEY, Value(data, true), status, log1)
    requires SetCuts(h, h0, a, FIRST_KEY, SetCompacts(Worn(dead), SECTOR_SIZE, false, FIRST_KEY, Value(data, true)),
                     FaceOf(Worn(dead)), FaceOf(log1), k1, k2)
    ensures status == Ok && Torn(h, h0, a, View(Table(Worn(dead))), View(Table(log1)))
  {
    var log, v := Worn(dead), Value(data, true);
    WornTable(dead);
    hide Worn, Table, WellFormed, LogOk, DeadSize, Orphans, Size, View, Packed, PackedLog, SetCuts, Torn;
    DistinctKeys(log);
    RowUnique(Table(log), 0);
    ViewOfRow(Table(log), 0);
    PackedSmaller(log, 0);
    TornExact(log, SECTOR_SIZE, false, FIRST_KEY, v, log1, h, h0, a, k1, k2);
  }

  // --------------------------------------------------------- a refusal that loses

  function Spare(gone: Value): seq<Entry> {
    [KeyEntry(1, FIRST_KEY), ValueEntry(1, OTHER_VALUE), KeyEntry(2, OTHER_KEY), Killed(ValueEntry(2, gone))]
  }

  lemma {:induction false} SpareTable(gone: Value)
    requires |gone.data| == 1
    ensures Holds(Spare(gone), [Row(FIRST_KEY, [OTHER_VALUE]), Row(OTHER_KEY, [])], 20, 5)
  {
    hide Holds, AddValue, HasKey, KeyEntry, ValueEntry, Killed;
    var k1, v1 := KeyEntry(1, FIRST_KEY), ValueEntry(1, OTHER_VALUE);
    var k2, d := KeyEntry(2, OTHER_KEY), Killed(ValueEntry(2, gone));
    var one, two := [Row(FIRST_KEY, [OTHER_VALUE])], [Row(FIRST_KEY, [OTHER_VALUE]), Row(OTHER_KEY, [])];
    assert [k1] + [v1] == [k1, v1] && one + [Row(OTHER_KEY, [])] == two;
    assert [k1, v1] + [k2] == [k1, v1, k2] && [k1, v1, k2] + [d] == Spare(gone);
    FirstRow(OTHER_VALUE);
    HoldsNothing();
    Starting(FIRST_KEY);
    HoldsKey([], [], 0, 0, FIRST_KEY);
    HoldsValue([k1], [Row(FIRST_KEY, [])], 5, 0, 0, OTHER_VALUE);
    HoldsKey([k1, v1], one, 10, 0, OTHER_KEY);
    HoldsDead([k1, v1, k2], two, 15, 0, 1, gone);
  }

  /** With one deleted key in the log, a value too large for the region is refused and the old value is gone. */
  lemma {:induction false} RefusedAndGone(gone: Value, data: Data, log1: seq<Entry>, status: Status)
    requires |gone.data| == 1 && |data| == SECTOR_SIZE && WellFormed(log1)
    requires SetDone(Spare(gone), SECTOR_SIZE, false, FIRST_KEY, Value(data, true), status, log1)
    ensures Settled(Spare(gone)) && status == ErrFull && FIRST_KEY in View(Table(Spare(gone)))
    ensures FIRST_KEY !in View(Table(log1))
  {
    var log, v := Spare(gone), Value(data, true);
    SpareTable(gone);
    hide Spare, Table, WellFormed, LogOk, Orphans, View, Packed, PackedLog;
    var t := Table(log);
    assert t[1].values == [];
    DistinctKeys(log);
    RowUnique(t, 0);
    ViewOfRow(t, 0);
    FullExact(log, SECTOR_SIZE, false, FIRST_KEY, data);
    UnusedCount(t);
    SetRefines(log, SECTOR_SIZE, false, FIRST_KEY, v, status, log1);
  }
}
