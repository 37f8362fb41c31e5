/**
 * What compaction (core/sysparam.c, _compact_params) writes: the rows that have a
 * value, renumbered from 1, each with the value a lookup sees.  One row, the one
 * a set is about to overwrite, can be written without its value.
 */
module SysparamPack {
  import opened SysparamLog
  import opened SysparamTable

  const NO_ROW: int := -1

  function KeyEntry(id: nat, key: Data): Entry {
    Entry(Head(true, false, false, false, id), key)
  }

  function ValueEntry(id: nat, v: Value): Entry {
    Entry(Head(true, false, true, v.binary, id), v.data)
  }

  /** The rows that survive, `skip` losing its value. */
  function Packed(t: Rows, skip: int): Rows {
    if t == [] then []
    else
      var n := |t| - 1;
      Packed(t[..n], skip)
      + if t[n].values == [] then [] else [Row(t[n].key, if n == skip then [] else [t[n].values[0]])]
  }

  /** The entries compaction writes for row n. */
  function PackedEntries(t: Rows, skip: int, n: nat): seq<Entry>
    requires n < |t|
  {
    var id := |Packed(t[..n], skip)| + 1;
    if t[n].values == [] then []
    else if n == skip then [KeyEntry(id, t[n].key)]
    else [KeyEntry(id, t[n].key), ValueEntry(id, t[n].values[0])]
  }

  function PackedLog(t: Rows, skip: int): seq<Entry> {
    if t == [] then [] else PackedLog(t[..|t| - 1], skip) + PackedEntries(t, skip, |t| - 1)
  }

  lemma {:induction false} PackedStep(t: Rows, skip: int, n: nat)
    requires n < |t|
    ensures PackedLog(t[..n + 1], skip) == PackedLog(t[..n], skip) + PackedEntries(t, skip, n)
    ensures Packed(t[..n + 1], skip)
         == Packed(t[..n], skip)
            + if t[n].values == [] then [] else [Row(t[n].key, if n == skip then [] else [t[n].values[0]])]
  {
    assert t[..n + 1][..n] == t[..n];
  }

  lemma {:induction false} PackedBound(t: Rows, skip: int)
    ensures |Packed(t, skip)| <= |t| && Single(Packed(t, skip))
    ensures forall p :: 0 <= p < |Packed(t, skip)| ==> HasKey(t, Packed(t, skip)[p].key)
  {
    if t != [] {
      var n := |t| - 1;
      PackedBound(t[..n], skip);
      assert forall r :: 0 <= r < n ==> t[..n][r] == t[r];
      forall p | 0 <= p < |Packed(t, skip)|
        ensures HasKey(t, Packed(t, skip)[p].key)
      {
        if p < |Packed(t[..n], skip)| {
          var r :| 0 <= r < n && t[..n][r].key == Packed(t[..n], skip)[p].key;
          assert t[r].key == Packed(t, skip)[p].key;
        }
      }
    }
  }

  lemma {:induction false} NotPacked(t: Rows, skip: int, key: Data)
    requires !HasKey(t, key)
    ensures !HasKey(Packed(t, skip), key)
  {
    PackedBound(t, skip);
  }

  /** A log without dead or orphaned entries that stands for the given rows. */
  predicate Stands(log: seq<Entry>, rows: Rows) {
    Table(log) == rows && WellFormed(log) && DeadSize(log) == 0 && Orphans(log) == 0
  }

  lemma {:induction false} AddKey(log: seq<Entry>, rows: Rows, key: Data)
    requires Stands(log, rows) && !HasKey(rows, key)
    ensures Stands(log + [KeyEntry(|rows| + 1, key)], rows + [Row(key, [])])
    ensures Size(log + [KeyEntry(|rows| + 1, key)]) == Size(log) + ENTRY_HEADER_SIZE + |key|
  {
    assert (log + [KeyEntry(|rows| + 1, key)])[..|log|] == log;
  }

  lemma {:induction false} AddOnlyValue(log: seq<Entry>, rows: Rows, key: Data, v: Value)
    requires Stands(log, rows + [Row(key, [])])
    ensures Stands(log + [ValueEntry(|rows| + 1, v)], rows + [Row(key, [v])])
    ensures Size(log + [ValueEntry(|rows| + 1, v)]) == Size(log) + ENTRY_HEADER_SIZE + |v.data|
  {
    var e := ValueEntry(|rows| + 1, v);
    assert (log + [e])[..|log|] == log;
    var before := rows + [Row(key, [])];
    assert before[|rows|].values + [v] == [v];
    assert ValueOf(e) == v;
    assert AddValue(before, |rows|, v) == rows + [Row(key, [v])];
  }

  /** Compaction adds one row at a time. */
  lemma {:induction false} PackRow(t: Rows, skip: int, log: seq<Entry>, rows: Rows)
    requires t != [] && rows == Packed(t[..|t| - 1], skip) && !HasKey(rows, t[|t| - 1].key)
    requires Stands(log, rows)
    ensures var row, n := t[|t| - 1], |t| - 1;
            && Stands(log + PackedEntries(t, skip, n), Packed(t, skip))
            && Size(log + PackedEntries(t, skip, n))
                 == Size(log) + LiveSize(row) - (if n == skip then FirstValueSize(t, n) else 0)
  {
    var row, n, id := t[|t| - 1], |t| - 1, |rows| + 1;
    if row.values == [] {
      assert log + [] == log;
    } else {
      AddKey(log, rows, row.key);
      if n != skip {
        AddOnlyValue(log + [KeyEntry(id, row.key)], rows, row.key, row.values[0]);
        assert log + [KeyEntry(id, row.key)] + [ValueEntry(id, row.values[0])]
               == log + [KeyEntry(id, row.key), ValueEntry(id, row.values[0])];
      }
    }
  }

  /**
   * The compacted log stands for the surviving rows, numbered from 1, and takes
   * exactly the live rows' bytes, less the skipped value.
   */
  lemma {:induction false} PackedTable(t: Rows, skip: int)
    requires Distinct(t)
    ensures Stands(PackedLog(t, skip), Packed(t, skip))
    ensures Size(PackedLog(t, skip)) == Sum(t, LiveSize) - FirstValueSize(t, skip)
  {
    if t != [] {
      var n := |t| - 1;
      LastKeyIsNew(t);
      NotPacked(t[..n], skip, t[n].key);
      PackedTable(t[..n], skip);
      SizeBelow(t, skip);
      PackRow(t, skip, PackedLog(t[..n], skip), Packed(t[..n], skip));
    }
  }

  lemma {:induction false} SizeBelow(t: Rows, skip: int)
    requires t != []
    ensures FirstValueSize(t, skip)
         == FirstValueSize(t[..|t| - 1], skip) + if skip == |t| - 1 then FirstValueSize(t, |t| - 1) else 0
  {
    assert 0 <= skip < |t| - 1 ==> t[..|t| - 1][skip] == t[skip];
  }

  /** Compaction keeps every parameter but the one it is told to skip. */
  lemma {:induction false} PackedView(t: Rows, skip: int)
    requires Distinct(t)
    ensures Distinct(Packed(t, skip))
    ensures View(Packed(t, skip)) == if 0 <= skip < |t| then View(t) - {t[skip].key} else View(t)
  {
    if t != [] {
      var n := |t| - 1;
      LastKeyIsNew(t);
      PackedView(t[..n], skip);
      assert 0 <= skip < n ==> t[..n][skip] == t[skip];
      NotPacked(t[..n], skip, t[n].key);
      ViewStep(t, skip, Packed(t[..n], skip));
    }
  }

  lemma {:induction false} ViewStep(t: Rows, skip: int, p: Rows)
    requires t != [] && Distinct(t) && p == Packed(t[..|t| - 1], skip)
    requires Distinct(p) && !HasKey(p, t[|t| - 1].key) && t[|t| - 1].key !in View(t[..|t| - 1])
    requires View(p) == if 0 <= skip < |t| - 1 then View(t[..|t| - 1]) - {t[skip].key} else View(t[..|t| - 1])
    ensures Distinct(Packed(t, skip))
    ensures View(Packed(t, skip)) == if 0 <= skip < |t| then View(t) - {t[skip].key} else View(t)
  {
    var n, m := |t| - 1, View(t[..|t| - 1]);
    var row := t[n];
    if row.values == [] {
      assert Packed(t, skip) == p;
      RemoveInserted(m, row);
    } else if n == skip {
      ViewAddRow(p, Row(row.key, []));
      RemoveInserted(m, row);
    } else {
      ViewAddRow(p, Row(row.key, [row.values[0]]));
      if 0 <= skip < n {
        Commute(m, row, t[skip].key, []);
      }
    }
  }

  /** Where a surviving row ends up: its new number never exceeds its old one. */
  lemma {:induction false} PackedRank(t: Rows, skip: int, r: nat)
    requires r < |t| && t[r].values != []
    ensures |Packed(t[..r], skip)| < |Packed(t, skip)|
    ensures Packed(t, skip)[|Packed(t[..r], skip)|] == Row(t[r].key, if r == skip then [] else [t[r].values[0]])
    ensures |Packed(t[..r], skip)| <= r
  {
    PackedBound(t[..r], skip);
    var n := |t| - 1;
    if r == n {
    } else {
      assert t[..n][..r] == t[..r];
      PackedRank(t[..n], skip, r);
    }
  }

  // ------------------------------------------------------------------- sizes

  /** Bytes a row needs once compacted. */
  function LiveSize(row: Row): int {
    if row.values == [] then 0 else 2 * ENTRY_HEADER_SIZE + |row.key| + |row.values[0].data|
  }

  function FirstValueSize(t: Rows, r: int): int {
    if 0 <= r < |t| && t[r].values != [] then ENTRY_HEADER_SIZE + |t[r].values[0].data| else 0
  }

  lemma {:induction false} FirstValueFits(vs: seq<Value>)
    requires vs != []
    ensures ValuesSize(vs) >= ENTRY_HEADER_SIZE + |vs[0].data|
    ensures |vs| == 1 ==> ValuesSize(vs) == ENTRY_HEADER_SIZE + |vs[0].data|
  {
    if |vs| > 1 {
      FirstValueFits(vs[..|vs| - 1]);
    }
  }

  /** A row needs no more once compacted; a single-valued row needs exactly the same. */
  lemma {:induction false} RowShrinks(row: Row)
    ensures LiveSize(row) <= RowSize(row)
    ensures |row.values| == 1 ==> LiveSize(row) == RowSize(row)
  {
    if row.values != [] {
      FirstValueFits(row.values);
    }
  }

  lemma {:induction false} LiveFits(t: Rows)
    ensures 0 <= Sum(t, LiveSize) <= Sum(t, RowSize)
  {
    if t != [] {
      LiveFits(t[..|t| - 1]);
      RowShrinks(t[|t| - 1]);
    }
  }

  predicate HasUnused(t: Rows) {
    exists r :: 0 <= r < |t| && t[r].values == []
  }

  /** In a settled table the count of unused keys is right, and without any nothing shrinks. */
  lemma {:induction false} UnusedCount(t: Rows)
    requires Single(t)
    ensures 0 <= Sum(t, RowNet)
    ensures Sum(t, RowNet) > 0 <==> HasUnused(t)
    ensures !HasUnused(t) ==> Sum(t, LiveSize) == Sum(t, RowSize)
  {
    if t != [] {
      var n := |t| - 1;
      assert forall r :: 0 <= r < n ==> t[..n][r] == t[r];
      UnusedCount(t[..n]);
      RowShrinks(t[n]);
      if HasUnused(t[..n]) {
        var r :| 0 <= r < n && t[..n][r].values == [];
        assert t[r].values == [];
      } else if t[n].values != [] {
        assert |t[n].values| == 1;
      }
    }
  }

  /** A positive count of unused keys always means that compaction drops a row. */
  lemma {:induction false} UnusedDrops(t: Rows, skip: int)
    requires Sum(t, RowNet) > 0
    ensures |Packed(t, skip)| < |t|
  {
    if t != [] {
      var n := |t| - 1;
      if t[n].values == [] {
        PackedBound(t[..n], skip);
      } else {
        UnusedDrops(t[..n], skip);
      }
    }
  }

  // ------------------------------------------------------------ payload sizes

  /** Every key and value came from a log entry, so its length fits the format. */
  predicate RowOk(row: Row) {
    |row.key| <= MAX_LEN && forall i :: 0 <= i < |row.values| ==> |row.values[i].data| <= MAX_LEN
  }

  predicate RowsOk(t: Rows) {
    forall r :: 0 <= r < |t| ==> RowOk(t[r])
  }

  lemma {:induction false} TableOk(log: seq<Entry>)
    requires LogOk(log) && WellFormed(log)
    ensures RowsOk(Table(log)) && |Table(log)| <= MAX_KEY_ID
  {
    if log != [] {
      TableOk(log[..|log| - 1]);
      assert EntryOk(log[|log| - 1]);
    }
  }

  lemma {:induction false} PackedOk(t: Rows, skip: int)
    requires RowsOk(t) && |t| <= MAX_KEY_ID
    ensures LogOk(PackedLog(t, skip))
  {
    if t != [] {
      var n := |t| - 1;
      assert forall r :: 0 <= r < n ==> t[..n][r] == t[r];
      PackedOk(t[..n], skip);
      PackedBound(t[..n], skip);
      assert RowOk(t[n]);
    }
  }

  // ---------------------------------------------------------------- iterating

  /** The first row from r on that has a value, or |t|. */
  function NextValued(t: Rows, r: nat): (n: nat)
    requires r <= |t|
    ensures r <= n <= |t|
    ensures n < |t| ==> t[n].values != []
    ensures forall k :: r <= k < n ==> t[k].values == []
    decreases |t| - r
  {
    if r == |t| || t[r].values != [] then r else NextValued(t, r + 1)
  }

  /** Rows without values leave no trace. */
  lemma {:induction false} PackedGap(t: Rows, skip: int, r: nat, n: nat)
    requires r <= n <= |t| && forall k :: r <= k < n ==> t[k].values == []
    ensures PackedLog(t[..n], skip) == PackedLog(t[..r], skip) && Packed(t[..n], skip) == Packed(t[..r], skip)
    decreases n
  {
    if r < n {
      PackedGap(t, skip, r, n - 1);
      PackedStep(t, skip, n - 1);
    }
  }

  /** What has been copied before row n, together with row n itself, fits where the log fits. */
  lemma {:induction false} PackedFits(log: seq<Entry>, skip: int, n: nat)
    requires LogOk(log) && WellFormed(log) && n < |Table(log)| && Table(log)[n].values != []
    ensures var t := Table(log);
            Size(PackedLog(t[..n], skip)) + LiveSize(t[n]) - (if n == skip then FirstValueSize(t, n)
                else 0) <= Size(log)
  {
    var t := Table(log);
    hide Table, PackedLog, Packed;
    DistinctKeys(log);
    SizeOfLog(log);
    LiveFits(t);
    PrefixSum(t, n + 1);
    assert t[..n + 1][..n] == t[..n];
    assert Distinct(t[..n]);
    PackedTable(t[..n], skip);
    assert Sum(t[..n + 1], LiveSize) == Sum(t[..n], LiveSize) + LiveSize(t[n]);
  }

  lemma {:induction false} PrefixSum(t: Rows, n: nat)
    requires n <= |t|
    ensures Sum(t[..n], LiveSize) <= Sum(t, LiveSize)
  {
    if n == |t| {
      assert t[..n] == t;
    } else {
      assert t[..|t| - 1][..n] == t[..n];
      PrefixSum(t[..|t| - 1], n);
    }
  }
}
