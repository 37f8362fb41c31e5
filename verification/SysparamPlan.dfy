/**
 * What sysparam_set_data (core/sysparam.c) decides and what it does to the
 * parameters: when it compacts, when it reports a full area, and which map
 * comes out.
 */
module SysparamPlan {
  import opened Bytes
  import opened SysparamLog
  import opened SysparamTable
  import opened SysparamPack
  import opened SysparamBoot
  import opened SysparamSteps

  // --------------------------------------------------------------- the decision

  /** The count of unused keys that a scan of the whole log arrives at. */
  function Unused(log: seq<Entry>): int {
    Sum(Table(log), RowNet) - Orphans(log)
  }

  function KeyIdOf(r: int): int {
    if r < 0 then -1 else r + 1
  }

  /** Bytes a set appends: the value, and the key if it is new. */
  function Needed(t: Rows, key: Data, data: Data): nat {
    ENTRY_HEADER_SIZE + |data| + if RowOf(t, key) < 0 then ENTRY_HEADER_SIZE + |key| else 0
  }

  function Room(log: seq<Entry>, size: nat): int {
    size - REGION_HEADER_SIZE - Size(log)
  }

  /** What a set expects to gain by compacting: dead entries and the value it replaces. */
  function Reclaim(log: seq<Entry>, r: int): int {
    DeadSize(log) + FirstValueSize(Table(log), r)
  }

  predicate SpaceCompacts(log: seq<Entry>, size: nat, key: Data, data: Data) {
    var t := Table(log);
    && Needed(t, key, data) > Room(log, size)
    && (Needed(t, key, data) <= Room(log, size) + Reclaim(log, RowOf(t, key)) || Unused(log) > 0)
  }

  datatype Plan = Full(compacts: bool) | Write(compacts: bool)

  /** Whether storing a non-empty value succeeds, and whether it compacts first. */
  function PlanSet(log: seq<Entry>, size: nat, force: bool, key: Data, data: Data): Plan {
    var t := Table(log);
    var r, first := RowOf(t, key), SpaceCompacts(log, size, key, data);
    var after := if first then PackedLog(t, r) else log;
    if Needed(t, key, data) > Room(after, size) then Full(first)
    else if r >= 0 then Write(first || force)
    else if first then (if |Packed(t, r)| >= MAX_KEY_ID then Full(true) else Write(true))
    else if |t| < MAX_KEY_ID then Write(force)
    else if Unused(log) > 0 then Write(true)
    else Full(false)
  }

  /** Compaction gains at least what was expected. */
  lemma {:induction false} PackedSmaller(log: seq<Entry>, r: int)
    requires WellFormed(log)
    ensures Size(PackedLog(Table(log), r)) + Reclaim(log, r) <= Size(log)
    ensures Reclaim(log, r) >= 0
  {
    DistinctKeys(log);
    SizeOfLog(log);
    LiveFits(Table(log));
    PackedTable(Table(log), r);
  }

  // ----------------------------------------------------------------- the effect

  /** The rows after value v has been written for row r (-1: a new key). */
  function AfterWrite(t: Rows, r: int, key: Data, v: Value, compacted: bool): Rows
    requires -1 <= r < |t|
  {
    if r < 0 then (if compacted then Packed(t, r) else t) + [Row(key, [v])]
    else if !compacted then AddThenDrop(t, r, v)
    else AddAt(Packed(t, r), IdAfter(t, |t|, r + 1) - 1, v)
  }

  function AddThenDrop(t: Rows, r: nat, v: Value): Rows
    requires r < |t|
  {
    if t[r].values == [] then AddValue(t, r, v) else DropFirst(AddValue(t, r, v), r)
  }

  function AddAt(t: Rows, r: int, v: Value): Rows {
    if 0 <= r < |t| then AddValue(t, r, v) else t
  }

  /** The one combination in which a set misplaces its value: the key is known, has no value, and the set compacts. */
  predicate Misplaced(t: Rows, r: int, compacted: bool) {
    0 <= r < |t| && t[r].values == [] && compacted
  }

  /** What a set does, by status; `log1` is the log afterwards. */
  ghost predicate SetDone(log0: seq<Entry>, size: nat, force: bool, key: Data, v: Value, status: Status,
                          log1: seq<Entry>) {
    var t := Table(log0);
    var r := RowOf(t, key);
    var plan := PlanSet(log0, size, force, key, v.data);
    if v.data == [] then
      if r < 0 || t[r].values == [] then status == NotFound && log1 == log0
      else status == Ok && Table(log1) == DropFirst(t, r) && Orphans(log1) == Orphans(log0)
    else if Stored(t, key, v) then status == Ok && log1 == log0
    else if plan.Full? then status == ErrFull && log1 == if plan.compacts then PackedLog(t, r) else log0
    else
      && status == Ok && Table(log1) == AfterWrite(t, r, key, v, plan.compacts)
      && Orphans(log1) == (if plan.compacts then 0 else Orphans(log0))
                          + if Misplaced(t, r, plan.compacts) && r >= |Packed(t, r)| then 1 else 0
  }

  // ----------------------------------------------------- writing refines a map

  lemma {:induction false} ViewOfKey(t: Rows, key: Data)
    requires Distinct(t)
    ensures RowOf(t, key) < 0 ==> key !in View(t)
    ensures RowOf(t, key) >= 0 ==> (key in View(t) <==> t[RowOf(t, key)].values != [])
  {
    if RowOf(t, key) < 0 {
      ViewOfNothing(t, key);
    } else {
      ViewOfRow(t, RowOf(t, key));
    }
  }

  /**
   * A successful write sets the key and nothing else, exactly if the value is not
   * misplaced and the row has at most one value when nothing is compacted.
   */
  lemma {:induction false} WriteView(t: Rows, r: int, key: Data, v: Value, compacted: bool)
    requires Distinct(t) && r == RowOf(t, key)
    requires r >= 0 && t[r].values != [] ==> t[r].values[0] != v
    ensures Misplaced(t, r, compacted) ==> View(AfterWrite(t, r, key, v, compacted)) == View(t) && key !in View(t)
    ensures !Misplaced(t, r, compacted) ==>
              View(AfterWrite(t, r, key, v, compacted))
              == View(t)[key := if r >= 0 && !compacted && |t[r].values| > 1 then t[r].values[1] else v]
  {
    ViewOfKey(t, key);
    PackedView(t, r);
    if r < 0 {
      NotPacked(t, r, key);
      ViewAddRow(if compacted then Packed(t, r) else t, Row(key, [v]));
    } else if !compacted {
      ViewSetRow(t, r, AddThenDrop(t, r, v)[r].values);
      assert AddThenDrop(t, r, v) == t[r := Row(t[r].key, AddThenDrop(t, r, v)[r].values)];
    } else if t[r].values != [] {
      WriteCompacted(t, r, v);
    } else {
      WriteMisplaced(t, r, v);
    }
  }

  lemma {:induction false} WriteCompacted(t: Rows, r: nat, v: Value)
    requires Distinct(t) && r < |t| && t[r].values != []
    ensures View(AddAt(Packed(t, r), IdAfter(t, |t|, r + 1) - 1, v)) == View(t)[t[r].key := v]
  {
    hide Packed, View, Distinct;
    var p, q := Packed(t, r), |Packed(t[..r], r)|;
    PackedView(t, r);
    PackedRank(t, r, r);
    assert p[q] == Row(t[r].key, []);
    assert p[q].values + [v] == [v];
    ViewSetRow(p, q, [v]);
  }

  lemma {:induction false} WriteMisplaced(t: Rows, r: nat, v: Value)
    requires Distinct(t) && r < |t| && t[r].values == []
    ensures View(AddAt(Packed(t, r), r, v)) == View(t)
  {
    var p := Packed(t, r);
    PackedView(t, r);
    ViewOfRow(t, r);
    assert View(t) - {t[r].key} == View(t);
    if r < |p| {
      PackedKeeps(t, r);
      ViewOfRow(p, r);
      ViewSetRow(p, r, p[r].values + [v]);
    }
  }

  /** Skipping a row that has no value skips nothing. */
  lemma {:induction false} PackedKeeps(t: Rows, skip: int)
    requires 0 <= skip < |t| ==> t[skip].values == []
    ensures forall p :: 0 <= p < |Packed(t, skip)| ==> Packed(t, skip)[p].values != []
  {
    if t != [] {
      var n := |t| - 1;
      assert 0 <= skip < n ==> t[..n][skip] == t[skip];
      PackedKeeps(t[..n], skip);
    }
  }

  /** The set writes its value under an id that compaction has given to another key, or to none. */
  predicate SetMisplaces(log: seq<Entry>, size: nat, force: bool, key: Data, v: Value) {
    var t, plan := Table(log), PlanSet(log, size, force, key, v.data);
    v.data != [] && plan.Write? && Misplaced(t, RowOf(t, key), plan.compacts)
  }

  /**
   * From a settled log a set acts on the map of parameters as its status says.
   * A successful one stores the value if and only if it does not misplace it.
   */
  lemma {:induction false} SetRefines(log0: seq<Entry>, size: nat, force: bool, key: Data, v: Value, status: Status,
                                      log1: seq<Entry>)
    requires Settled(log0) && WellFormed(log1) && SetDone(log0, size, force, key, v, status, log1)
    ensures var m0, m1 := View(Table(log0)), View(Table(log1));
            && (status == Ok && v.data != [] ==> (m1 == m0[key := v] <==> !SetMisplaces(log0, size, force, key, v)))
            && (status == Ok && v.data == [] ==> key in m0 && m1 == m0 - {key})
            && (status == NotFound ==> v.data == [] && key !in m0 && m1 == m0)
            && (status == ErrFull ==> m1 == if PlanSet(log0, size, force, key, v.data).compacts then m0 - {key} else m0)
            && (status == Ok || status == NotFound || status == ErrFull)
    ensures !SetMisplaces(log0, size, force, key, v) ==> Settled(log1)
  {
    var t := Table(log0);
    var r, plan := RowOf(t, key), PlanSet(log0, size, force, key, v.data);
    DistinctKeys(log0);
    hide PlanSet, WellFormed, Orphans, Table, View, Packed, PackedLog;
    ViewOfKey(t, key);
    if v.data == [] {
      if r >= 0 && t[r].values != [] {
        ViewSetRow(t, r, t[r].values[1..]);
        SingleSet(t, r, t[r].values[1..]);
      }
    } else if Stored(t, key, v) {
      ViewOfRow(t, r);
      assert View(t)[key := v] == View(t);
    } else if plan.Full? {
      FullView(t, r, key, log0);
    } else {
      WriteView(t, r, key, v, plan.compacts);
      if !Misplaced(t, r, plan.compacts) {
        WriteSingle(t, r, key, v, plan.compacts);
      }
    }
  }

  lemma {:induction false} SingleSet(t: Rows, r: nat, values: seq<Value>)
    requires Single(t) && r < |t| && |values| <= 1
    ensures Single(t[r := Row(t[r].key, values)])
  {
  }

  lemma {:induction false} FullView(t: Rows, r: int, key: Data, log: seq<Entry>)
    requires WellFormed(log) && t == Table(log) && r == RowOf(t, key)
    ensures var p := PackedLog(t, r);
            View(Table(p)) == View(t) - {key} && WellFormed(p) && Single(Table(p)) && Orphans(p) == 0
  {
    hide Table, PackedLog, Packed, View, WellFormed, DeadSize, Orphans, Distinct, Single, HasKey;
    DistinctKeys(log);
    PackedTable(t, r);
    PackedView(t, r);
    PackedBound(t, r);
    ViewOfKey(t, key);
    assert key !in View(t) ==> View(t) - {key} == View(t);
  }

  lemma {:induction false} WriteSingle(t: Rows, r: int, key: Data, v: Value, compacted: bool)
    requires Single(t) && r == RowOf(t, key) && !Misplaced(t, r, compacted)
    ensures Single(AfterWrite(t, r, key, v, compacted))
  {
    PackedBound(t, r);
    if r >= 0 && compacted {
      PackedRank(t, r, r);
    }
  }

  // ------------------------------------------------------------- the area is full

  /** The live parameters other than `key`, together with what a set of it appends, exceed one region. */
  predicate Crowded(t: Rows, size: nat, key: Data, data: Data) {
    Sum(t, LiveSize) - FirstValueSize(t, RowOf(t, key)) + Needed(t, key, data) > size - REGION_HEADER_SIZE
  }

  /** Every id is taken by a key that has a value. */
  predicate OutOfIds(t: Rows, key: Data) {
    RowOf(t, key) < 0 && |Packed(t, NO_ROW)| >= MAX_KEY_ID
  }

  /**
   * A set is refused as full exactly when the live parameters and the new entry
   * really do not fit, or no id is left; and a refusal costs the key its old value
   * exactly when some key is unused.
   */
  lemma {:induction false} FullExact(log: seq<Entry>, size: nat, force: bool, key: Data, data: Data)
    requires Settled(log) && LogOk(log)
    ensures var t, plan := Table(log), PlanSet(log, size, force, key, data);
            && (plan.Full? <==> Crowded(t, size, key, data) || OutOfIds(t, key))
            && (plan.Full? && key in View(t) ==> (plan.compacts <==> HasUnused(t)))
  {
    hide Table, PackedLog, Packed, Size, Sum, View, WellFormed, DeadSize, Orphans, LogOk, Stands, HasUnused, OrphanSize,
      RowsOk, Distinct, Single;
    var t := Table(log);
    var r := RowOf(t, key);
    DistinctKeys(log);
    TableOk(log);
    SizeOfLog(log);
    PackedTable(t, r);
    PackedBound(t, r);
    LiveFits(t);
    UnusedCount(t);
    ViewOfKey(t, key);
    if HasUnused(t) {
      UnusedDrops(t, r);
    } else {
      AllPacked(t, r);
    }
  }

  /**
   * A set that stores a value compacts first if and only if that was asked for, the log has no
   * room for what it appends, or a new key finds every id taken.
   */
  lemma {:induction false} CompactsExact(log: seq<Entry>, size: nat, force: bool, key: Data, data: Data)
    requires Settled(log) && LogOk(log)
    ensures var t, plan := Table(log), PlanSet(log, size, force, key, data);
            plan.Write? ==>
              (plan.compacts <==>
                 force || Needed(t, key, data) > Room(log, size) || (RowOf(t, key) < 0 && |t| >= MAX_KEY_ID))
  {
    hide Table, PackedLog, Packed, Size, Sum, WellFormed, DeadSize, Orphans, LogOk;
  }

  /**
   * A set misplaces its value if and only if its key is known, has no value, everything fits,
   * and the set has to compact because that was asked for or because the log has no room.
   */
  lemma {:induction false} MisplacesExact(log: seq<Entry>, size: nat, force: bool, key: Data, v: Value)
    requires Settled(log) && LogOk(log)
    ensures SetMisplaces(log, size, force, key, v) <==>
              var t := Table(log);
              var r := RowOf(t, key);
              && v.data != [] && r >= 0 && t[r].values == [] && !Crowded(t, size, key, v.data)
              && (force || Needed(t, key, v.data) > Room(log, size))
  {
    hide Table, PackedLog, Packed, Size, Sum, WellFormed, DeadSize, Orphans, LogOk, PlanSet, Crowded, Needed, Room;
    CompactsExact(log, size, force, key, v.data);
    FullExact(log, size, force, key, v.data);
  }

  lemma {:induction false} AllPacked(t: Rows, skip: int)
    requires !HasUnused(t)
    ensures |Packed(t, skip)| == |t|
  {
    if t != [] {
      assert forall r :: 0 <= r < |t| - 1 ==> t[..|t| - 1][r] == t[r];
      assert forall r :: 0 <= r < |t| - 1 ==> t[r].values != [];
      assert !HasUnused(t[..|t| - 1]);
      AllPacked(t[..|t| - 1], skip);
    }
  }

  // --------------------------------------------------------------- step by step

  /** Where a set stands: whether it has compacted, and what it then knows about ids. */
  ghost predicate Phase(log0: seq<Entry>, r: int, compacted: bool, log1: seq<Entry>, keyId: int, maxKeyId: nat,
                        unused: int) {
    var t := Table(log0);
    if compacted then
      log1 == PackedLog(t, r) && keyId == IdAfter(t, |t|, KeyIdOf(r)) && maxKeyId == |Packed(t, r)| && unused == 0
    else
      log1 == log0 && keyId == KeyIdOf(r) && (r < 0 ==> maxKeyId == |t| && unused == Unused(log0))
  }

  /** The plan, told from what is known after the space check. */
  lemma {:induction false} PlanIs(log0: seq<Entry>, size: nat, force: bool, key: Data, data: Data, first: bool,
                                  log1: seq<Entry>,
                                  keyId: int, maxKeyId: nat, unused: int)
    requires Phase(log0, RowOf(Table(log0), key), first, log1, keyId, maxKeyId, unused)
    requires first == SpaceCompacts(log0, size, key, data)
    ensures var plan, needed := PlanSet(log0, size, force, key, data), Needed(Table(log0), key, data);
            && (needed > Room(log1, size) ==> plan == Full(first))
            && (needed <= Room(log1, size) ==>
                  plan == if keyId >= 0 || maxKeyId < MAX_KEY_ID then Write(first || force)
                          else if unused > 0 then Write(true) else Full(first))
    ensures keyId < 0 <==> RowOf(Table(log0), key) < 0
    ensures first ==> unused == 0
    ensures !first ==>
            log1 == log0 && keyId == KeyIdOf(RowOf(Table(log0), key))
                && (keyId < 0 ==> unused == Unused(log0) && maxKeyId == |Table(log0)|)
  {
    hide Table, Packed, PackedLog, Room, Needed, SpaceCompacts, Unused;
  }

  /** A compaction leaves no less room and, if keys are unused, frees an id. */
  lemma {:induction false} MoreRoom(log0: seq<Entry>, size: nat, r: int, log1: seq<Entry>, keyId: int, maxKeyId: nat)
    requires LogOk(log0) && WellFormed(log0) && Phase(log0, r, true, log1, keyId, maxKeyId, 0)
    ensures Room(log1, size) >= Room(log0, size)
    ensures maxKeyId <= |Table(log0)| <= MAX_KEY_ID && (keyId < 0 ==> r < 0)
    ensures Unused(log0) > 0 ==> maxKeyId < MAX_KEY_ID
  {
    hide Table, Packed, PackedLog, Size, Reclaim, LogOk, WellFormed, RowsOk;
    PackedSmaller(log0, r);
    TableOk(log0);
    PackedBound(Table(log0), r);
    if Unused(log0) > 0 {
      UnusedDrops(Table(log0), r);
    }
  }

  /** The rows after the entries of a set have been appended. */
  function Written(t: Rows, keyId: int, key: Data, v: Value): Rows {
    if keyId < 0 then t + [Row(key, [v])] else AddAt(t, keyId - 1, v)
  }

  /** The entries of a set can be appended under these ids. */
  ghost predicate Writable(log: seq<Entry>, keyId: int, maxKeyId: nat, key: Data, v: Value) {
    && 0 < |key| <= MAX_LEN && |v.data| <= MAX_LEN && keyId <= MAX_KEY_ID && keyId != 0
    && (keyId < 0 ==> maxKeyId == |Table(log)| && maxKeyId < MAX_KEY_ID && !HasKey(Table(log), key))
  }

  lemma {:induction false} PhaseWritable(log0: seq<Entry>, r: int, compacted: bool, log1: seq<Entry>, keyId: int,
                                         maxKeyId: nat,
                                         unused: int, key: Data, v: Value)
    requires LogOk(log0) && WellFormed(log0) && Phase(log0, r, compacted, log1, keyId, maxKeyId, unused)
    requires r == RowOf(Table(log0), key) && 0 < |key| <= MAX_LEN && |v.data| <= MAX_LEN
    requires r < 0 ==> maxKeyId < MAX_KEY_ID
    ensures Writable(log1, keyId, maxKeyId, key, v) && (keyId < 0 <==> r < 0)
  {
    hide Packed, PackedLog, Table, WellFormed, LogOk, RowsOk;
    var t := Table(log0);
    DistinctKeys(log0);
    TableOk(log0);
    PackedTable(t, r);
    PackedBound(t, r);
    if r >= 0 {
      PackedBound(t[..r], r);
    } else {
      NotPacked(t, r, key);
    }
  }

  /** A new key can be appended; it adds an empty row and changes no parameter. */
  lemma {:induction false} NewKey(log: seq<Entry>, base: nat, size: nat, maxKeyId: nat, key: Data, v: Value)
    requires WellFormed(log) && Writable(log, -1, maxKeyId, key, v)
    requires 2 * ENTRY_HEADER_SIZE + |v.data| + |key| <= Room(log, size)
    ensures var e := KeyEntry(maxKeyId + 1, key);
            && Appendable(log, base, base + size, e)
            && Apply(Table(log), e) == Table(log) + [Row(key, [])]
            && View(Apply(Table(log), e)) == View(Table(log))
            && Orphans(log + [e]) == Orphans(log)
            && ENTRY_HEADER_SIZE + |v.data| <= Room(log + [e], size)
            && FaceOf(log + [e]) == FaceOf(log)
  {
    var e := KeyEntry(maxKeyId + 1, key);
    DistinctKeys(log);
    ViewAddRow(Table(log), Row(key, []));
    SizeAppend(log, e);
    TableAppend(log, e);
    EmptyRowSingle(Table(log), key);
    assert (log + [e])[..|log|] == log;
  }

  lemma {:induction false} EmptyRowSingle(t: Rows, key: Data)
    ensures Single(t + [Row(key, [])]) <==> Single(t)
  {
    var u := t + [Row(key, [])];
    assert forall r :: 0 <= r < |t| ==> u[r] == t[r];
  }

  /** What the log comes to after the space handling of a set. */
  lemma {:induction false} PhaseFace(log0: seq<Entry>, key: Data, compacted: bool, log1: seq<Entry>, keyId: int,
                                     maxKeyId: nat, unused: int)
    requires WellFormed(log0) && Phase(log0, RowOf(Table(log0), key), compacted, log1, keyId, maxKeyId, unused)
    ensures FaceOf(log1) == if compacted then Middle(FaceOf(log0), key, true) else FaceOf(log0)
  {
    hide Table, View, PackedLog, Packed, WellFormed, Orphans, Single;
    FullView(Table(log0), RowOf(Table(log0), key), key, log0);
  }

  /** With a second value behind the first the log is not settled, and the parameters are the same. */
  lemma {:induction false} TwoValues(log0: seq<Entry>, r: nat, v: Value, log2: seq<Entry>)
    requires WellFormed(log0) && r < |Table(log0)| && Table(log0)[r].values != []
    requires Table(log2) == AddValue(Table(log0), r, v)
    ensures FaceOf(log2) == Face(View(Table(log0)), false) && Table(log0)[r].key in View(Table(log0))
  {
    hide Table, View, WellFormed, Orphans;
    DistinctKeys(log0);
    SecondUnseen(Table(log0), r, v);
    ViewOfRow(Table(log0), r);
    assert |Table(log2)[r].values| > 1;
  }

  lemma {:induction false} NewValue(log: seq<Entry>, base: nat, size: nat, id: nat, v: Value)
    requires 1 <= id <= MAX_KEY_ID && |v.data| <= MAX_LEN && ENTRY_HEADER_SIZE + |v.data| <= Room(log, size)
    ensures var e := ValueEntry(id, v);
            && Appendable(log, base, base + size, e)
            && Apply(Table(log), e) == AddAt(Table(log), id - 1, v)
            && Orphans(log + [e]) == Orphans(log) + if id > |Table(log)| then 1 else 0
  {
    var e := ValueEntry(id, v);
    assert (log + [e])[..|log|] == log;
  }

  lemma {:induction false} OnlyValue(t: Rows, key: Data, v: Value)
    ensures AddAt(t + [Row(key, [])], |t|, v) == Written(t, -1, key, v)
  {
    assert (t + [Row(key, [])])[|t|].values + [v] == [v];
  }

  /** Two appends in a row, the first of which shows nothing new. */
  lemma {:induction false} JoinAppends(h0: seq<seq<Byte>>, h1: seq<seq<Byte>>, h2: seq<seq<Byte>>, a: Area,
                                       m: Face)
    requires Grew(h1, h0) && |h0| < |h1| && AllShow(h1, |h0|, |h1| - 1, a, m) && AllShow(h1, |h1| - 1, |h1|, a, m)
    requires Grew(h2, h1) && |h1| < |h2| && AllShow(h2, |h1|, |h2| - 1, a, m)
    ensures Grew(h2, h0) && |h0| < |h2| && AllShow(h2, |h0|, |h2| - 1, a, m)
  {
    hide Shows;
    assert forall i :: 0 <= i < |h1| ==> h2[i] == h2[..|h1|][i];
    assert h2[..|h0|] == h2[..|h1|][..|h0|];
  }

  /** Phase and Written together give what AfterWrite says. */
  lemma {:induction false} WriteResult(log0: seq<Entry>, r: int, compacted: bool, log1: seq<Entry>, keyId: int,
                                       maxKeyId: nat,
                                       unused: int, key: Data, v: Value)
    requires WellFormed(log0) && Phase(log0, r, compacted, log1, keyId, maxKeyId, unused)
    requires r == RowOf(Table(log0), key)
    ensures var t, rows := Table(log0), Written(Table(log1), keyId, key, v);
            && (compacted ==> rows == AfterWrite(t, r, key, v, true))
            && (!compacted && (r < 0 || t[r].values == []) ==> rows == AfterWrite(t, r, key, v, false))
            && (!compacted && r >= 0 ==> rows == AddValue(t, r, v))
    ensures Table(log1) == if compacted then Packed(Table(log0), r) else Table(log0)
    ensures Orphans(log1) == if compacted then 0 else Orphans(log0)
    ensures keyId > |Table(log1)| <==> Misplaced(Table(log0), r, compacted) && r >= |Packed(Table(log0), r)|
    ensures View(Table(log1)) == if compacted then View(Table(log0)) - {key} else View(Table(log0))
  {
    hide Packed, PackedLog, Table, WellFormed, Orphans, View, Distinct;
    var t := Table(log0);
    DistinctKeys(log0);
    PackedTable(t, r);
    FullView(t, r, key, log0);
    if r >= 0 && t[r].values != [] {
      PackedRank(t, r, r);
    }
  }

  /** A value added behind another one is not seen. */
  lemma {:induction false} SecondUnseen(t: Rows, r: nat, v: Value)
    requires Distinct(t) && r < |t| && t[r].values != []
    ensures View(AddValue(t, r, v)) == View(t)
  {
    ViewOfRow(t, r);
    ViewSetRow(t, r, t[r].values + [v]);
    var m, key := View(t), t[r].key;
    assert m[key := m[key]] == m;
  }

  /**
   * What the cuts in the middle of a set show: a compacted log without the key or, if nothing is
   * compacted, the old parameters with the new value already written behind the old one.
   */
  function Middle(f: Face, key: Data, compacts: bool): Face {
    if compacts then Face(f.m - {key}, true) else Face(f.m, false)
  }

  /**
   * How the writes of a set look to a power cut: what was there before write k1, the middle
   * from then on, what the set leaves from write k2 on.  Without a compaction the middle is at
   * most the one cut between writing the new value and deleting the old one.
   */
  ghost predicate SetCuts(h: seq<seq<Byte>>, h0: seq<seq<Byte>>, a: Area, key: Data, compacts: bool,
                          f0: Face, f1: Face, k1: nat, k2: nat) {
    && Grew(h, h0) && |h0| <= k1 <= k2 <= |h| && (compacts ==> k1 < k2)
    && AllShow(h, |h0|, k1, a, f0) && AllShow(h, k1, k2, a, Middle(f0, key, compacts)) && AllShow(h, k2, |h|, a, f1)
    && (!compacts ==> k2 <= k1 + 1 && (k1 < k2 ==> key in f0.m) && if |h| == |h0| then f1 == f0 else k2 == |h| - 1)
  }

  lemma {:induction false} NoCuts(h: seq<seq<Byte>>, a: Area, key: Data, f: Face)
    ensures SetCuts(h, h, a, key, false, f, f, |h|, |h|)
  {
  }

  /** First a compaction that drops the value of `key`, then writes that show the result from the last one on. */
  lemma {:induction false} JoinCuts(h0: seq<seq<Byte>>, h1: seq<seq<Byte>>, h2: seq<seq<Byte>>, a: Area, key: Data,
                                    compacts: bool, f0: Face, mid: Face, f1: Face, k: nat)
    requires Cut1(h1, h0, k, a, f0, mid)
    requires mid == if compacts then Middle(f0, key, true) else f0
    requires if compacts then k < |h1| else h1 == h0
    requires Grew(h2, h1) && |h1| < |h2| && AllShow(h2, |h1|, |h2| - 1, a, mid) && AllShow(h2, |h2| - 1, |h2|, a, f1)
    ensures SetCuts(h2, h0, a, key, compacts, f0, f1, if compacts then k else |h2| - 1, |h2| - 1)
  {
    hide Shows;
    assert forall i :: 0 <= i < |h1| ==> h2[i] == h2[..|h1|][i];
    assert h2[..|h0|] == h2[..|h1|][..|h0|];
  }

  /** A set that only compacted. */
  lemma {:induction false} FullCuts(h: seq<seq<Byte>>, h0: seq<seq<Byte>>, a: Area, key: Data, compacts: bool,
                                    f0: Face, f1: Face, k: nat)
    requires Cut1(h, h0, k, a, f0, f1) && f1 == if compacts then Middle(f0, key, true) else f0
    requires if compacts then k < |h| else h == h0
    ensures SetCuts(h, h0, a, key, compacts, f0, f1, k, |h|)
  {
  }

  /** After a compaction, further writes that show the result. */
  lemma {:induction false} CutsMore(h: seq<seq<Byte>>, h': seq<seq<Byte>>, h0: seq<seq<Byte>>, a: Area, key: Data,
                                    f0: Face, f1: Face, k1: nat, k2: nat)
    requires SetCuts(h, h0, a, key, true, f0, f1, k1, k2) && Grew(h', h) && AllShow(h', |h|, |h'|, a, f1)
    ensures SetCuts(h', h0, a, key, true, f0, f1, k1, k2)
  {
    hide Shows;
    assert forall i :: 0 <= i < |h| ==> h'[i] == h'[..|h|][i];
    assert h'[..|h0|] == h'[..|h|][..|h0|];
  }

  /** Writing the new value shows nothing yet, deleting the old one switches. */
  lemma {:induction false} ReplaceCuts(h0: seq<seq<Byte>>, h1: seq<seq<Byte>>, h2: seq<seq<Byte>>, a: Area, key: Data,
                                       f0: Face, f1: Face)
    requires Grew(h1, h0) && |h0| < |h1| && AllShow(h1, |h0|, |h1| - 1, a, f0) && key in f0.m
    requires AllShow(h1, |h1| - 1, |h1|, a, Middle(f0, key, false))
    requires Grew(h2, h1) && |h2| == |h1| + 1 && AllShow(h2, |h1|, |h2|, a, f1)
    ensures SetCuts(h2, h0, a, key, false, f0, f1, |h2| - 2, |h2| - 1)
  {
    hide Shows;
    assert forall i :: 0 <= i < |h1| ==> h2[i] == h2[..|h1|][i];
    assert h2[..|h0|] == h2[..|h1|][..|h0|];
  }

  /** Whether a set compacts. */
  predicate SetCompacts(log: seq<Entry>, size: nat, force: bool, key: Data, v: Value) {
    v.data != [] && !Stored(Table(log), key, v) && PlanSet(log, size, force, key, v.data).compacts
  }

  /** The key already has this very value. */
  predicate Stored(t: Rows, key: Data, v: Value) {
    RowOf(t, key) >= 0 && t[RowOf(t, key)].values != [] && t[RowOf(t, key)].values[0] == v
  }

  /** A cut before write k shows f0, a cut from then on f1. */
  ghost predicate Cut1(h: seq<seq<Byte>>, h0: seq<seq<Byte>>, k: nat, a: Area, f0: Face, f1: Face) {
    Grew(h, h0) && |h0| <= k <= |h| && AllShow(h, |h0|, k, a, f0) && AllShow(h, k, |h|, a, f1)
  }

  /** The set of a new value has room and an id for its entries; `log1` is where they go. */
  ghost predicate Ready(log0: seq<Entry>, size: nat, force: bool, key: Data, v: Value, compacted: bool,
                        log1: seq<Entry>,
                        keyId: int, maxKeyId: nat, unused: int) {
    && LogOk(log0) && WellFormed(log0) && Phase(log0, RowOf(Table(log0), key), compacted, log1, keyId, maxKeyId, unused)
    && 0 < |key| <= MAX_LEN && 0 < |v.data| <= MAX_LEN && !Stored(Table(log0), key, v)
    && PlanSet(log0, size, force, key, v.data) == Write(compacted)
    && Needed(Table(log0), key, v.data) <= Room(log1, size) && (keyId < 0 ==> maxKeyId < MAX_KEY_ID)
  }

  lemma {:induction false} ReadyFacts(log0: seq<Entry>, size: nat, force: bool, key: Data, v: Value, compacted: bool,
                                      log1: seq<Entry>, keyId: int, maxKeyId: nat, unused: int)
    requires Ready(log0, size, force, key, v, compacted, log1, keyId, maxKeyId, unused)
    ensures Writable(log1, keyId, maxKeyId, key, v)
    ensures ENTRY_HEADER_SIZE + |v.data| + (if keyId < 0 then ENTRY_HEADER_SIZE + |key| else 0) <= Room(log1, size)
    ensures SetCompacts(log0, size, force, key, v) == compacted
    ensures View(Table(log1)) == if compacted then View(Table(log0)) - {key} else View(Table(log0))
    ensures !compacted ==> log1 == log0 && keyId == KeyIdOf(RowOf(Table(log0), key))
  {
    hide Table, View, PlanSet, Room, LogOk, WellFormed, Packed, PackedLog;
    var r := RowOf(Table(log0), key);
    PhaseWritable(log0, r, compacted, log1, keyId, maxKeyId, unused, key, v);
    WriteResult(log0, r, compacted, log1, keyId, maxKeyId, unused, key, v);
  }

  lemma {:induction false} ReadyFace(log0: seq<Entry>, size: nat, force: bool, key: Data, v: Value, compacted: bool,
                                     log1: seq<Entry>, keyId: int, maxKeyId: nat, unused: int)
    requires Ready(log0, size, force, key, v, compacted, log1, keyId, maxKeyId, unused)
    ensures FaceOf(log1) == if compacted then Middle(FaceOf(log0), key, true) else FaceOf(log0)
  {
    hide FaceOf, Middle, Phase, WellFormed, Table, PlanSet;
    PhaseFace(log0, key, compacted, log1, keyId, maxKeyId, unused);
  }

  /** The entries have been appended and no old value has to go. */
  lemma {:induction false} WriteDone(log0: seq<Entry>, size: nat, force: bool, key: Data, v: Value, compacted: bool,
                                     log1: seq<Entry>, keyId: int, maxKeyId: nat, unused: int, log2: seq<Entry>)
    requires Ready(log0, size, force, key, v, compacted, log1, keyId, maxKeyId, unused)
    requires Table(log2) == Written(Table(log1), keyId, key, v)
    requires Orphans(log2) == Orphans(log1) + if keyId > |Table(log1)| then 1 else 0
    requires compacted || RowOf(Table(log0), key) < 0 || Table(log0)[RowOf(Table(log0), key)].values == []
    ensures SetDone(log0, size, force, key, v, Ok, log2)
  {
    hide Table, View, PlanSet, Room, LogOk, WellFormed, Packed, PackedLog, Orphans, Needed, Phase, Written, AfterWrite,
      Misplaced;
    WriteResult(log0, RowOf(Table(log0), key), compacted, log1, keyId, maxKeyId, unused, key, v);
    NotMisplaced(Table(log0), RowOf(Table(log0), key));
  }

  lemma {:induction false} NotMisplaced(t: Rows, r: int)
    ensures !Misplaced(t, r, false)
  {
  }

  /** The entries have been appended and then the old value deleted. */
  lemma {:induction false} DropDone(log0: seq<Entry>, size: nat, force: bool, key: Data, v: Value,
                                    log1: seq<Entry>, keyId: int, maxKeyId: nat, unused: int, log2: seq<Entry>,
                                        log3: seq<Entry>)
    requires Ready(log0, size, force, key, v, false, log1, keyId, maxKeyId, unused)
    requires Table(log2) == Written(Table(log1), keyId, key, v)
    requires Orphans(log2) == Orphans(log1) + if keyId > |Table(log1)| then 1 else 0
    requires var r := RowOf(Table(log0), key);
             && r >= 0 && Table(log0)[r].values != [] && r < |Table(log2)| && Table(log2)[r].values != []
             && Table(log3) == DropFirst(Table(log2), r) && Orphans(log3) == Orphans(log2)
    ensures SetDone(log0, size, force, key, v, Ok, log3)
    ensures FaceOf(log2) == Middle(FaceOf(log0), key, false) && key in FaceOf(log0).m
  {
    hide Table, View, PlanSet, Room, LogOk, WellFormed, Packed, PackedLog, Orphans, Needed, Phase, Written, Misplaced,
      AddValue, DropFirst;
    var t, r := Table(log0), RowOf(Table(log0), key);
    WriteResult(log0, r, false, log1, keyId, maxKeyId, unused, key, v);
    TwoValues(log0, r, v, log2);
    NotMisplaced(t, r);
  }

  lemma {:induction false} FullDone(log0: seq<Entry>, size: nat, force: bool, key: Data, v: Value, compacted: bool,
                                    log1: seq<Entry>, keyId: int, maxKeyId: nat, unused: int)
    requires WellFormed(log0) && Phase(log0, RowOf(Table(log0), key), compacted, log1, keyId, maxKeyId, unused)
    requires v.data != [] && !Stored(Table(log0), key, v) && PlanSet(log0, size, force, key, v.data) == Full(compacted)
    ensures SetDone(log0, size, force, key, v, ErrFull, log1) && SetCompacts(log0, size, force, key, v) == compacted
    ensures View(Table(log1)) == if compacted then View(Table(log0)) - {key} else View(Table(log0))
  {
    hide Table, View, PlanSet, WellFormed, Packed, PackedLog, Orphans;
    WriteResult(log0, RowOf(Table(log0), key), compacted, log1, keyId, maxKeyId, unused, key, v);
  }
}
