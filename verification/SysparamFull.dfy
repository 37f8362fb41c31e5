/**
 * When a set is refused, in terms of the parameters alone: exactly if the map with the new
 * value does not fit into one region.
 */
module SysparamFull {
  import opened Bytes
  import opened SysparamLog
  import opened SysparamTable
  import opened SysparamPack
  import opened SysparamPlan

  // ------------------------------------------------------------- weighing a map

  /** Bytes of one parameter: a key entry and a value entry. */
  function ParamSize(key: Data, v: Value): nat {
    2 * ENTRY_HEADER_SIZE + |key| + |v.data|
  }

  ghost function Pick(m: map<Data, Value>): (k: Data)
    requires m != map[]
    ensures k in m
  {
    var k :| k in m;
    k
  }

  /** Bytes of all parameters. */
  ghost function Weight(m: map<Data, Value>): nat
    decreases m.Keys
  {
    if m == map[] then 0
    else
      var k := Pick(m);
      ParamSize(k, m[k]) + Weight(m - {k})
  }

  lemma {:induction false} WeightOne(m: map<Data, Value>, k: Data)
    requires k in m
    ensures Weight(m) == ParamSize(k, m[k]) + Weight(m - {k})
    decreases m.Keys
  {
    var j := Pick(m);
    if j != k {
      WeightOne(m - {j}, k);
      WeightOne(m - {k}, j);
      assert m - {j} - {k} == m - {k} - {j};
    }
  }

  /** Storing a value weighs what it weighs beside the others. */
  lemma {:induction false} WeightSet(m: map<Data, Value>, k: Data, v: Value)
    ensures Weight(m[k := v]) == ParamSize(k, v) + Weight(m - {k})
    ensures |m[k := v]| == |m - {k}| + 1
  {
    WeightOne(m[k := v], k);
    assert m[k := v] - {k} == m - {k};
    assert m[k := v].Keys == (m - {k}).Keys + {k};
  }

  /** Everything fits into one region of the given size, and every key gets an id. */
  ghost predicate Storable(m: map<Data, Value>, size: nat) {
    REGION_HEADER_SIZE + Weight(m) <= size && |m| <= MAX_KEY_ID
  }

  /** The parameters weigh what a compacted log takes. */
  lemma {:induction false} WeightOfRows(t: Rows)
    requires Distinct(t)
    ensures Weight(View(t)) == Sum(t, LiveSize) && |View(t)| == |Packed(t, NO_ROW)|
  {
    if t != [] {
      var n := |t| - 1;
      var m := View(t[..n]);
      LastKeyIsNew(t);
      WeightOfRows(t[..n]);
      if t[n].values != [] {
        WeightSet(m, t[n].key, t[n].values[0]);
        assert m - {t[n].key} == m;
      }
    }
  }

  // ------------------------------------------------------------ refused sets

  /** What a log holds can be stored where the log is. */
  lemma {:induction false} HeldStorable(t: Rows, size: nat)
    requires Distinct(t) && REGION_HEADER_SIZE + Sum(t, RowSize) <= size && |t| <= MAX_KEY_ID
    ensures Storable(View(t), size)
  {
    hide View, Sum, Packed, Weight;
    WeightOfRows(t);
    LiveFits(t);
    PackedBound(t, NO_ROW);
  }

  lemma {:induction false} FullNewKey(t: Rows, size: nat, key: Data, v: Value)
    requires Distinct(t) && RowOf(t, key) < 0
    ensures Storable(View(t)[key := v], size) <==> !Crowded(t, size, key, v.data) && !OutOfIds(t, key)
  {
    hide View, Sum, Packed, Weight;
    ViewOfKey(t, key);
    WeightOfRows(t);
    WeightSet(View(t), key, v);
    assert View(t) - {key} == View(t);
  }

  lemma {:induction false} FullKnownKey(t: Rows, size: nat, key: Data, v: Value)
    requires Distinct(t) && RowOf(t, key) >= 0 && t[RowOf(t, key)].values != [] && |t| <= MAX_KEY_ID
    ensures Storable(View(t)[key := v], size) <==> !Crowded(t, size, key, v.data)
  {
    hide View, Sum, Packed, Weight;
    var r, m := RowOf(t, key), View(t);
    ViewOfRow(t, r);
    WeightOfRows(t);
    WeightSet(m, key, v);
    WeightOne(m, key);
    assert m.Keys == (m - {key}).Keys + {key};
    PackedBound(t, NO_ROW);
  }

  /** A key that has lost its value: the row is there, and a log that takes the value holds both. */
  lemma {:induction false} FullUnusedKey(log: seq<Entry>, size: nat, key: Data, v: Value)
    requires Settled(log) && LogOk(log) && v.data != []
    requires var t := Table(log); RowOf(t, key) >= 0 && t[RowOf(t, key)].values == []
    ensures var t := Table(log);
            && (Crowded(t, size, key, v.data) ==> !Storable(View(t)[key := v], size))
            && (Needed(t, key, v.data) <= Room(log, size) ==> Storable(View(t)[key := v], size))
  {
    hide View, Sum, Packed, Weight, Table, WellFormed, LogOk, DeadSize, OrphanSize, Orphans, RowsOk;
    var t := Table(log);
    var r := RowOf(t, key);
    var row := Row(t[r].key, [v]);
    DistinctKeys(log);
    TableOk(log);
    SizeOfLog(log);
    ViewSetRow(t, r, [v]);
    WeightOfRows(t[r := row]);
    SumUpdate(t, r, row, LiveSize);
    SumUpdate(t, r, row, RowSize);
    assert ValuesSize([v]) == ENTRY_HEADER_SIZE + |v.data| && ValuesSize([]) == 0 by {
      FirstValueFits([v]);
    }
    if Needed(t, key, v.data) <= Room(log, size) {
      HeldStorable(t[r := row], size);
    }
  }

  /**
   * A set that does not misplace its value is refused if and only if the parameters with the
   * new value do not fit into one region, or are more than there are ids.
   */
  lemma {:induction false} RefusedExact(log: seq<Entry>, size: nat, force: bool, key: Data, v: Value)
    requires Settled(log) && LogOk(log) && REGION_HEADER_SIZE + Size(log) <= size && v.data != []
    requires !SetMisplaces(log, size, force, key, v)
    ensures !Stored(Table(log), key, v) && PlanSet(log, size, force, key, v.data).Full?
       <==> !Storable(View(Table(log))[key := v], size)
  {
    hide View, Sum, Packed, PackedLog, Weight, Table, WellFormed, LogOk, DeadSize, OrphanSize, Orphans, Crowded,
      OutOfIds, Storable, RowsOk, PlanSet, Unused, Size;
    var t := Table(log);
    var r := RowOf(t, key);
    DistinctKeys(log);
    TableOk(log);
    SizeOfLog(log);
    FullExact(log, size, force, key, v.data);
    if Stored(t, key, v) {
      ViewOfRow(t, r);
      assert View(t)[key := v] == View(t);
      HeldStorable(t, size);
    } else if r < 0 {
      FullNewKey(t, size, key, v);
    } else {
      NoIdNeeded(t, key);
      if t[r].values != [] {
        FullKnownKey(t, size, key, v);
      } else {
        FullUnusedKey(log, size, key, v);
        RoomIfWritten(log, size, force, key, v.data);
      }
    }
  }

  lemma {:induction false} NoIdNeeded(t: Rows, key: Data)
    requires RowOf(t, key) >= 0
    ensures !OutOfIds(t, key)
  {
  }

  lemma {:induction false} RoomIfWritten(log: seq<Entry>, size: nat, force: bool, key: Data, data: Data)
    ensures PlanSet(log, size, force, key, data) == Write(false) ==> Needed(Table(log), key, data) <= Room(log, size)
  {
  }
}
