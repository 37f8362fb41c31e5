/**
 * The table of parameters that a sysparam log stands for.
 *
 * Reading a log from the left, a live key adds a row and a live value with id n
 * is added to row n - 1.  A lookup sees the first value of a row.  This module
 * relates searching the log to the table, says what killing an entry or adding
 * one does to the table, and what each scan counts.
 */
module SysparamTable {
  import opened SysparamLog

  datatype Value = Value(data: Data, binary: bool)
  datatype Row = Row(key: Data, values: seq<Value>)
  type Rows = seq<Row>

  function ValueOf(e: Entry): Value {
    Value(e.data, e.head.binary)
  }

  function Apply(t: Rows, e: Entry): Rows {
    if IsLiveKey(e.head) then t + [Row(e.data, [])]
    else if IsLiveValue(e.head) && 1 <= e.head.id <= |t| then AddValue(t, e.head.id - 1, ValueOf(e))
    else t
  }

  function AddValue(t: Rows, r: nat, v: Value): Rows
    requires r < |t|
  {
    t[r := Row(t[r].key, t[r].values + [v])]
  }

  function DropFirst(t: Rows, r: nat): Rows
    requires r < |t| && t[r].values != []
  {
    t[r := Row(t[r].key, t[r].values[1..])]
  }

  function Table(log: seq<Entry>): Rows {
    if log == [] then [] else Apply(Table(log[..|log| - 1]), log[|log| - 1])
  }

  predicate HasKey(t: Rows, key: Data) {
    exists r :: 0 <= r < |t| && t[r].key == key
  }

  /** No two rows have the same key. */
  predicate Distinct(t: Rows) {
    forall r, s :: 0 <= r < s < |t| ==> t[r].key != t[s].key
  }

  /** Every row has at most one live value; only a power cut can leave more. */
  predicate Single(t: Rows) {
    forall r :: 0 <= r < |t| ==> |t[r].values| <= 1
  }

  /** Keys are numbered 1, 2, ... in log order and never repeat. */
  predicate Fits(t: Rows, e: Entry) {
    IsLiveKey(e.head) ==> e.head.id == |t| + 1 && !HasKey(t, e.data)
  }

  /** A live value whose id no earlier key has: no lookup ever sees it. */
  predicate IsOrphan(t: Rows, e: Entry) {
    IsLiveValue(e.head) && !(1 <= e.head.id <= |t|)
  }

  predicate WellFormed(log: seq<Entry>) {
    log == [] || (WellFormed(log[..|log| - 1]) && Fits(Table(log[..|log| - 1]), log[|log| - 1]))
  }

  /** The parameters a table stands for. */
  function View(t: Rows): map<Data, Value> {
    if t == [] then map[]
    else
      var m, row := View(t[..|t| - 1]), t[|t| - 1];
      if row.values == [] then m else m[row.key := row.values[0]]
  }

  /** No row has more than one value and no value is without a row: how every run without a power cut starts. */
  ghost predicate Settled(log: seq<Entry>) {
    WellFormed(log) && Single(Table(log)) && Orphans(log) == 0
  }

  // ---------------------------------------------------- growing and prefixes

  lemma {:induction false} TableAppend(log: seq<Entry>, e: Entry)
    ensures Table(log + [e]) == Apply(Table(log), e)
    ensures WellFormed(log + [e]) <==> WellFormed(log) && Fits(Table(log), e)
  {
    assert (log + [e])[..|log|] == log;
  }

  lemma {:induction false} TablePrefix(log: seq<Entry>, n: nat)
    requires n < |log|
    ensures Table(log[..n + 1]) == Apply(Table(log[..n]), log[n])
    ensures WellFormed(log[..n + 1]) <==> WellFormed(log[..n]) && Fits(Table(log[..n]), log[n])
  {
    assert log[..n + 1][..n] == log[..n];
  }

  lemma {:induction false} WellFormedPrefix(log: seq<Entry>, n: nat)
    requires WellFormed(log) && n <= |log|
    ensures WellFormed(log[..n])
  {
    if n == |log| {
      assert log[..n] == log;
    } else {
      assert log[..n] == log[..|log| - 1][..n];
      WellFormedPrefix(log[..|log| - 1], n);
    }
  }

  lemma {:induction false} DistinctKeys(log: seq<Entry>)
    requires WellFormed(log)
    ensures Distinct(Table(log))
  {
    if log != [] {
      DistinctKeys(log[..|log| - 1]);
    }
  }

  /** Rows are only ever added: a row keeps its key, and its values grow at the end. */
  lemma {:induction false} RowsGrow(log: seq<Entry>, n: nat)
    requires n <= |log|
    ensures |Table(log[..n])| <= |Table(log)|
    ensures forall r :: 0 <= r < |Table(log[..n])| ==> Table(log[..n])[r].key == Table(log)[r].key
  {
    if n == |log| {
      assert log[..n] == log;
    } else {
      assert log[..n] == log[..|log| - 1][..n];
      RowsGrow(log[..|log| - 1], n);
    }
  }

  // ----------------------------------------------------- searching the table

  /** A live key entry at index j is row number |Table(log[..j])|, and its id says so. */
  lemma {:induction false} RowOfKey(log: seq<Entry>, j: nat)
    requires WellFormed(log) && j < |log| && IsLiveKey(log[j].head)
    ensures |Table(log[..j])| < |Table(log)|
    ensures Table(log)[|Table(log[..j])|].key == log[j].data
    ensures log[j].head.id == |Table(log[..j])| + 1
    ensures |Table(log[..j + 1])| == |Table(log[..j])| + 1
  {
    WellFormedPrefix(log, j + 1);
    TablePrefix(log, j);
    RowsGrow(log, j + 1);
  }

  /** Where there is no live key, no row is added. */
  lemma {:induction false} NoKeyNoRow(log: seq<Entry>, n: nat, m: nat)
    requires n <= m <= |log|
    requires forall k :: n <= k < m ==> !IsLiveKey(log[k].head)
    ensures |Table(log[..m])| == |Table(log[..n])|
    decreases m
  {
    if n < m {
      NoKeyNoRow(log, n, m - 1);
      TablePrefix(log, m - 1);
    }
  }

  /** Searching for the next key from index n finds the next row, if there is one. */
  lemma {:induction false} NextRow(log: seq<Entry>, n: nat)
    requires WellFormed(log) && n <= |log|
    ensures var j, r := First(log, n, ID_ANY, false), |Table(log[..n])|;
            && (j < |log| <==> r < |Table(log)|)
            && (j < |log| ==> IsLiveKey(log[j].head) && Table(log)[r].key == log[j].data && log[j].head.id == r + 1
                              && |Table(log[..j])| == r && |Table(log[..j + 1])| == r + 1)
  {
    var j := First(log, n, ID_ANY, false);
    NoKeyNoRow(log, n, j);
    if j < |log| {
      RowOfKey(log, j);
    } else {
      assert log[..j] == log;
    }
  }

  lemma {:induction false} FirstUnique(log: seq<Entry>, n: nat, id: nat, findValue: bool, j: nat)
    requires n <= j <= |log|
    requires j < |log| ==> Matches(log[j].head, id, findValue)
    requires forall k :: n <= k < j ==> !Matches(log[k].head, id, findValue)
    ensures First(log, n, id, findValue) == j
  {
  }

  /** Searching a log with one more entry. */
  lemma {:induction false} FirstAppend(log: seq<Entry>, n: nat, id: nat, findValue: bool)
    requires n < |log|
    ensures var k := First(log[..|log| - 1], n, id, findValue);
            First(log, n, id, findValue)
            == if k < |log| - 1 then k else if Matches(log[|log| - 1].head, id, findValue) then k else |log|
  {
    var k := First(log[..|log| - 1], n, id, findValue);
    FirstUnique(log, n, id, findValue,
                if k < |log| - 1 then k else if Matches(log[|log| - 1].head, id, findValue) then k else |log|);
  }

  /** The entry at v is the first live value of row r: what a lookup of row r sees. */
  predicate Seen(log: seq<Entry>, r: nat, v: nat)
    requires r < |Table(log)| && v <= |log|
  {
    && (v < |log| <==> Table(log)[r].values != [])
    && (v < |log| ==> ValueOf(log[v]) == Table(log)[r].values[0] && IsLiveValue(log[v].head) && log[v].head.id == r + 1)
  }

  /** From its key on, the first live value of a row is the value a lookup sees. */
  lemma {:induction false} ValueLookup(log: seq<Entry>, j: nat)
    requires LogOk(log) && WellFormed(log) && j < |log| && IsLiveKey(log[j].head)
    ensures |Table(log[..j])| < |Table(log)|
    ensures Seen(log, |Table(log[..j])|, First(log, j + 1, |Table(log[..j])| + 1, true))
  {
    RowOfKey(log, j);
    var n, r := |log| - 1, |Table(log[..j])|;
    if j == n {
      assert log[..j] == log[..n];
    } else {
      assert log[..n][..j] == log[..j];
      ValueLookup(log[..n], j);
      FirstAppend(log, j + 1, r + 1, true);
      assert EntryOk(log[j]);
      SeenAppend(log, r, First(log[..n], j + 1, r + 1, true));
    }
  }

  lemma {:induction false} SeenAppend(log: seq<Entry>, r: nat, v: nat)
    requires log != [] && r + 1 < ID_ANY && r < |Table(log[..|log| - 1])| && v <= |log| - 1
    requires Seen(log[..|log| - 1], r, v)
    ensures r < |Table(log)|
    ensures Seen(log, r, if v < |log| - 1 || Matches(log[|log| - 1].head, r + 1, true) then v else |log|)
  {
  }

  /** A value found by searching from its key is the first live value of its row. */
  lemma {:induction false} NothingBefore(log: seq<Entry>, j: nat)
    requires LogOk(log) && WellFormed(log) && j < |log| && IsLiveKey(log[j].head)
    ensures var r := |Table(log[..j])|;
            var v := First(log, j + 1, r + 1, true);
            r < |Table(log[..v])| && Table(log[..v])[r].values == []
  {
    var r := |Table(log[..j])|;
    var v := First(log, j + 1, r + 1, true);
    WellFormedPrefix(log, v);
    assert log[..v][..j] == log[..j];
    ValueLookup(log[..v], j);
    FirstUnique(log[..v], j + 1, r + 1, true, v);
  }

  /** The row of a key, or -1. */
  function RowOf(t: Rows, key: Data): (r: int)
    ensures -1 <= r < |t|
    ensures r >= 0 <==> HasKey(t, key)
    ensures r >= 0 ==> t[r].key == key
  {
    if t == [] then -1
    else if t[|t| - 1].key == key then |t| - 1
    else
      var r := RowOf(t[..|t| - 1], key);
      assert forall s :: 0 <= s < |t| - 1 ==> t[..|t| - 1][s] == t[s];
      r
  }

  lemma {:induction false} RowUnique(t: Rows, r: nat)
    requires Distinct(t) && r < |t|
    ensures RowOf(t, t[r].key) == r
  {
  }

  // --------------------------------------------------------- killing a value

  /** Clearing the ALIVE flag. */
  function Killed(e: Entry): Entry {
    e.(head := e.head.(alive := false))
  }

  /** Killing the first live value of a row takes that value, and nothing else, out of the table. */
  lemma {:induction false} KillValue(log: seq<Entry>, v: nat)
    requires LogOk(log) && WellFormed(log) && v < |log| && IsLiveValue(log[v].head)
    requires 0 < log[v].head.id <= |Table(log[..v])| && Table(log[..v])[log[v].head.id - 1].values == []
    ensures var r := log[v].head.id - 1;
            && 0 <= r < |Table(log)| && Table(log)[r].values != []
            && Table(log[v := Killed(log[v])]) == DropFirst(Table(log), r)
            && WellFormed(log[v := Killed(log[v])])
    decreases |log|
  {
    var n := |log| - 1;
    var init, r := log[..n], log[v].head.id - 1;
    var log' := log[v := Killed(log[v])];
    if v == n {
      assert log'[..n] == init;
      DropAdded(Table(init), r, ValueOf(log[v]));
    } else {
      assert log'[..n] == init[v := Killed(init[v])];
      assert init[..v] == log[..v];
      KillValue(init, v);
      assert log'[n] == log[n];
      ApplyAfterDrop(Table(init), r, log[n]);
    }
  }

  /** Killing a value that a row has leaves the number of rows, and so the orphans, as they are. */
  lemma {:induction false} KillOrphans(log: seq<Entry>, v: nat)
    requires LogOk(log) && WellFormed(log) && v < |log| && IsLiveValue(log[v].head)
    requires 0 < log[v].head.id <= |Table(log[..v])| && Table(log[..v])[log[v].head.id - 1].values == []
    ensures Orphans(log[v := Killed(log[v])]) == Orphans(log)
    decreases |log|
  {
    var n := |log| - 1;
    var init, log' := log[..n], log[v := Killed(log[v])];
    if v == n {
      assert log'[..n] == init;
    } else {
      assert log'[..n] == init[v := Killed(init[v])] && log'[n] == log[n];
      assert init[..v] == log[..v];
      KillValue(init, v);
      KillOrphans(init, v);
    }
  }

  lemma {:induction false} DropAdded(t: Rows, r: nat, v: Value)
    requires r < |t| && t[r].values == []
    ensures DropFirst(AddValue(t, r, v), r) == t
  {
    assert (t[r].values + [v])[1..] == [];
    assert Row(t[r].key, []) == t[r];
  }

  lemma {:induction false} ApplyAfterDrop(t: Rows, r: nat, e: Entry)
    requires r < |t| && t[r].values != [] && Fits(t, e)
    ensures Fits(DropFirst(t, r), e)
    ensures r < |Apply(t, e)| && Apply(t, e)[r].values != []
    ensures Apply(DropFirst(t, r), e) == DropFirst(Apply(t, e), r)
  {
    var u := DropFirst(t, r);
    assert forall s :: 0 <= s < |t| ==> u[s].key == t[s].key;
    if IsLiveValue(e.head) && e.head.id - 1 == r {
      var v := ValueOf(e);
      assert (t[r].values + [v])[1..] == t[r].values[1..] + [v];
    }
    assert Apply(u, e) == DropFirst(Apply(t, e), r);
  }

  // ------------------------------------------------------------------- views

  lemma {:induction false} ViewOfNothing(t: Rows, key: Data)
    requires !HasKey(t, key)
    ensures key !in View(t)
  {
    if t != [] {
      var n := |t| - 1;
      assert forall r :: 0 <= r < n ==> t[..n][r] == t[r];
      assert t[n].key != key;
      ViewOfNothing(t[..n], key);
    }
  }

  lemma {:induction false} LastKeyIsNew(t: Rows)
    requires Distinct(t) && t != []
    ensures Distinct(t[..|t| - 1]) && !HasKey(t[..|t| - 1], t[|t| - 1].key) && t[|t| - 1].key !in View(t[..|t| - 1])
  {
    assert forall r :: 0 <= r < |t| - 1 ==> t[..|t| - 1][r] == t[r];
    ViewOfNothing(t[..|t| - 1], t[|t| - 1].key);
  }

  /** A key is in the view exactly when its row has a value, and then shows the first one. */
  lemma {:induction false} ViewOfRow(t: Rows, r: nat)
    requires Distinct(t) && r < |t|
    ensures t[r].key in View(t) <==> t[r].values != []
    ensures t[r].values != [] ==> View(t)[t[r].key] == t[r].values[0]
  {
    LastKeyIsNew(t);
    var n := |t| - 1;
    if r < n {
      assert t[..n][r] == t[r];
      ViewOfRow(t[..n], r);
    }
  }

  lemma {:induction false} ViewAddRow(t: Rows, row: Row)
    requires Distinct(t) && !HasKey(t, row.key)
    ensures Distinct(t + [row])
    ensures View(t + [row]) == if row.values == [] then View(t) else View(t)[row.key := row.values[0]]
  {
    assert (t + [row])[..|t|] == t;
  }

  lemma {:induction false} DistinctSetRow(t: Rows, r: nat, values: seq<Value>)
    requires Distinct(t) && r < |t|
    ensures Distinct(t[r := Row(t[r].key, values)])
  {
    var u := t[r := Row(t[r].key, values)];
    assert forall s :: 0 <= s < |t| ==> u[s].key == t[s].key;
  }

  /** Changing the values of one row changes the view at its key only. */
  lemma {:induction false} ViewSetRow(t: Rows, r: nat, values: seq<Value>)
    requires Distinct(t) && r < |t|
    ensures Distinct(t[r := Row(t[r].key, values)])
    ensures View(t[r := Row(t[r].key, values)])
         == if values == [] then View(t) - {t[r].key} else View(t)[t[r].key := values[0]]
  {
    LastKeyIsNew(t);
    DistinctSetRow(t, r, values);
    var n := |t| - 1;
    var u := t[r := Row(t[r].key, values)];
    var m, row := View(t[..n]), t[n];
    if r == n {
      assert u[..n] == t[..n];
      RemoveInserted(m, row);
    } else {
      assert u[..n] == t[..n][r := Row(t[..n][r].key, values)];
      assert u[n] == row;
      ViewSetRow(t[..n], r, values);
      if row.values != [] {
        Commute(m, row, t[r].key, values);
      }
    }
  }

  lemma {:induction false} RemoveInserted(m: map<Data, Value>, row: Row)
    requires row.key !in m
    ensures m - {row.key} == m
    ensures row.values != [] ==> m[row.key := row.values[0]] - {row.key} == m
  {
  }

  /** Changes at different keys commute. */
  lemma {:induction false} Commute(m: map<Data, Value>, row: Row, key: Data, values: seq<Value>)
    requires row.key != key && row.values != []
    ensures m[row.key := row.values[0]] - {key} == (m - {key})[row.key := row.values[0]]
    ensures values != [] ==>
            m[row.key := row.values[0]][key := values[0]] == m[key := values[0]][row.key := row.values[0]]
  {
  }

  // -------------------------------------------------------------- accounting

  function Sum(t: Rows, f: Row -> int): int {
    if t == [] then 0 else Sum(t[..|t| - 1], f) + f(t[|t| - 1])
  }

  lemma {:induction false} SumUpdate(t: Rows, r: nat, row: Row, f: Row -> int)
    requires r < |t|
    ensures Sum(t[r := row], f) == Sum(t, f) - f(t[r]) + f(row)
  {
    var n := |t| - 1;
    if r == n {
      assert t[r := row][..n] == t[..n];
    } else {
      assert t[r := row][..n] == t[..n][r := row];
      SumUpdate(t[..n], r, row, f);
    }
  }

  lemma {:induction false} SumAppend(t: Rows, row: Row, f: Row -> int)
    ensures Sum(t + [row], f) == Sum(t, f) + f(row)
  {
    assert (t + [row])[..|t|] == t;
  }

  function ValuesSize(vs: seq<Value>): nat {
    if vs == [] then 0 else ValuesSize(vs[..|vs| - 1]) + ENTRY_HEADER_SIZE + |vs[|vs| - 1].data|
  }

  /** Bytes taken by the live entries of a row. */
  function RowSize(row: Row): int {
    ENTRY_HEADER_SIZE + |row.key| + ValuesSize(row.values)
  }

  /** A row counts one for its key and minus one for each live value. */
  function RowNet(row: Row): int {
    1 - |row.values|
  }

  function DeadSize(log: seq<Entry>): nat {
    if log == [] then 0
    else DeadSize(log[..|log| - 1]) + if IsLive(log[|log| - 1].head) then 0 else EntrySize(log[|log| - 1])
  }

  function OrphanSize(log: seq<Entry>): nat {
    if log == [] then 0
    else OrphanSize(log[..|log| - 1])
         + if IsOrphan(Table(log[..|log| - 1]), log[|log| - 1]) then EntrySize(log[|log| - 1]) else 0
  }

  function Orphans(log: seq<Entry>): nat {
    if log == [] then 0
    else Orphans(log[..|log| - 1]) + if IsOrphan(Table(log[..|log| - 1]), log[|log| - 1]) then 1 else 0
  }

  /** Every byte of the log is dead, orphaned or belongs to a row. */
  lemma {:induction false} SizeOfLog(log: seq<Entry>)
    ensures Size(log) == DeadSize(log) + OrphanSize(log) + Sum(Table(log), RowSize)
    ensures Orphans(log) == 0 <==> OrphanSize(log) == 0
  {
    if log != [] {
      var n := |log| - 1;
      SizeOfLog(log[..n]);
      SumApply(Table(log[..n]), log[n]);
    }
  }

  lemma {:induction false} SumApply(t: Rows, e: Entry)
    ensures Sum(Apply(t, e), RowSize)
         == Sum(t, RowSize) + if IsLive(e.head) && !IsOrphan(t, e) then EntrySize(e) else 0
    ensures Sum(Apply(t, e), RowNet)
         == Sum(t, RowNet) + if IsLiveKey(e.head) then 1 else if IsLive(e.head) && !IsOrphan(t, e) then -1 else 0
  {
    if IsLiveKey(e.head) {
      SumAppend(t, Row(e.data, []), RowSize);
      SumAppend(t, Row(e.data, []), RowNet);
    } else if IsLiveValue(e.head) && !IsOrphan(t, e) {
      var r, v := e.head.id - 1, ValueOf(e);
      assert (t[r].values + [v])[..|t[r].values|] == t[r].values;
      SumUpdate(t, r, Row(t[r].key, t[r].values + [v]), RowSize);
      SumUpdate(t, r, Row(t[r].key, t[r].values + [v]), RowNet);
    }
  }

  lemma {:induction false} TallyStep(base: nat, log: seq<Entry>, ctx: Context, n: nat, m: nat)
    requires n <= m < |log|
    ensures Tally(base, log, ctx, n, m + 1) == Load(base, log, Tally(base, log, ctx, n, m), m)
    decreases m - n
  {
    if n < m {
      TallyStep(base, log, Load(base, log, ctx, n), n + 1, m);
    } else {
      assert Tally(base, log, Load(base, log, ctx, n), n + 1, n + 1) == Load(base, log, ctx, n);
    }
  }

  lemma {:induction false} TallyJoin(base: nat, log: seq<Entry>, ctx: Context, n: nat, m: nat, k: nat)
    requires n <= m <= k <= |log|
    ensures Tally(base, log, Tally(base, log, ctx, n, m), m, k) == Tally(base, log, ctx, n, k)
    decreases m - n
  {
    if n < m {
      TallyJoin(base, log, Load(base, log, ctx, n), n + 1, m, k);
    }
  }

  /** What a scan from the start of the region has counted after m entries. */
  lemma {:induction false} Counted(base: nat, log: seq<Entry>, m: nat)
    requires WellFormed(log) && m <= |log|
    ensures var c, t := Tally(base, log, Start(base), 0, m), Table(log[..m]);
            && c.unusedKeys == Sum(t, RowNet) - Orphans(log[..m])
            && c.compactable == DeadSize(log[..m])
            && c.maxKeyId == |t|
  {
    if m > 0 {
      Counted(base, log, m - 1);
      TallyStep(base, log, Start(base), 0, m - 1);
      WellFormedPrefix(log, m);
      TablePrefix(log, m - 1);
      assert log[..m][..m - 1] == log[..m - 1];
      SumApply(Table(log[..m - 1]), log[m - 1]);
    }
  }
}
