/**
 * Whole runs of the sysparam store: whatever sequence of operations is applied,
 * the replies are those of a finite map.
 */
module SysparamRun {
  import opened Bytes
  import opened Flash
  import opened SysparamLog
  import opened SysparamTable
  import opened SysparamPack
  import opened SysparamBoot
  import opened SysparamSteps
  import opened SysparamPlan
  import opened SysparamFull
  import opened Sysparam

  // ---------------------------------------------------------------- iterating

  /** The keys that have a value, each with the value a lookup sees. */
  function Pairs(t: Rows): seq<(Data, Value)> {
    if t == [] then []
    else Pairs(t[..|t| - 1]) + if t[|t| - 1].values == [] then [] else [(t[|t| - 1].key, t[|t| - 1].values[0])]
  }

  /** The pairs are the entries of the map, each of them once. */
  ghost predicate Lists(pairs: seq<(Data, Value)>, m: map<Data, Value>) {
    && (forall i, j :: 0 <= i < j < |pairs| ==> pairs[i].0 != pairs[j].0)
    && (forall i :: 0 <= i < |pairs| ==> pairs[i].0 in m && m[pairs[i].0] == pairs[i].1)
    && (forall k :: k in m ==> exists i :: 0 <= i < |pairs| && pairs[i].0 == k)
  }

  lemma {:induction false} PairsList(t: Rows)
    requires Distinct(t)
    ensures Lists(Pairs(t), View(t))
  {
    if t != [] {
      var n := |t| - 1;
      LastKeyIsNew(t);
      PairsList(t[..n]);
      if t[n].values != [] {
        ListsAdd(Pairs(t[..n]), View(t[..n]), t[n].key, t[n].values[0]);
      } else {
        assert Pairs(t) == Pairs(t[..n]);
      }
    }
  }

  lemma {:induction false} ListsAdd(pairs: seq<(Data, Value)>, m: map<Data, Value>, key: Data, v: Value)
    requires Lists(pairs, m) && key !in m
    ensures Lists(pairs + [(key, v)], m[key := v])
  {
    var p, m' := pairs + [(key, v)], m[key := v];
    forall k | k in m'
      ensures exists i :: 0 <= i < |p| && p[i].0 == k
    {
      if k == key {
        assert p[|pairs|].0 == k;
      } else {
        var i :| 0 <= i < |pairs| && pairs[i].0 == k;
        assert p[i].0 == k;
      }
    }
  }

  lemma {:induction false} PairsGap(t: Rows, r: nat, n: nat)
    requires r <= n <= |t| && forall k :: r <= k < n ==> t[k].values == []
    ensures Pairs(t[..n]) == Pairs(t[..r])
    decreases n
  {
    if r < n {
      PairsGap(t, r, n - 1);
      assert t[..n][..n - 1] == t[..n - 1];
    }
  }

  lemma {:induction false} PairsNext(t: Rows, n: nat)
    requires n < |t| && t[n].values != []
    ensures Pairs(t[..n + 1]) == Pairs(t[..n]) + [(t[n].key, t[n].values[0])]
  {
    assert t[..n + 1][..n] == t[..n];
  }

  lemma {:induction false} PairsAll(t: Rows)
    ensures Pairs(t[..|t|]) == Pairs(t) && Pairs(t[..0]) == []
  {
    assert t[..|t|] == t && t[..0] == [];
  }

  lemma {:induction false} StoreLists(s: Store)
    requires s.Valid()
    ensures Lists(Pairs(Table(s.log)), s.Params())
  {
    DistinctKeys(s.log);
    PairsList(Table(s.log));
  }

  /** A client's loop over sysparam_iter_next: every parameter comes up exactly once. */
  method Iterate(s: Store) returns (pairs: seq<(Data, Value)>)
    requires s.Valid()
    modifies s`forceCompact
    ensures s.forceCompact == old(s.forceCompact)
    ensures Lists(pairs, s.Params())
  {
    hide *;
    pairs := [];
    var ctx := Start(s.curBase);
    ghost var i, r, t := -1, 0, Table(s.log);
    AtFirstRow(s.curBase, s.log);
    PairsAll(t);
    while true
      invariant s.Valid() && s.forceCompact == old(s.forceCompact)
      invariant AtRow(ctx, s.curBase, s.log, i, r) && r <= |t| && pairs == Pairs(t[..r])
      decreases |t| - r
    {
      var status, key, value;
      status, key, value, ctx, i := s.IterNext(ctx, i, r);
      ghost var n := IterMeans(status, key, value, ctx, s.curBase, s.log, i, r);
      PairsGap(t, r, n);
      if status != Ok {
        StoreLists(s);
        return;
      }
      RowMeans(t, n, ctx.head.id, key, value);
      PairsNext(t, n);
      pairs := pairs + [(key, value)];
      r := n + 1;
    }
  }

  lemma {:induction false} RowMeans(t: Rows, n: nat, id: nat, key: Data, value: Value)
    requires RowIs(t, n, id, key, value)
    ensures n < |t| && t[n].values != [] && key == t[n].key && value == t[n].values[0]
  {
  }

  // --------------------------------------------------------------------- runs

  datatype Op = SetOp(key: Data, value: Data, binary: bool) | GetOp(key: Data) | CompactOp | IterateOp

  datatype Reply = Reply(status: Status, value: Data, binary: bool, pairs: seq<(Data, Value)>)

  /**
   * How a finite map in a region of the given size answers: op on map m replies r and leaves
   * map m'.  Only what a refused set leaves is not fixed by the map.
   */
  ghost predicate Answers(size: nat, m: map<Data, Value>, op: Op, r: Reply, m': map<Data, Value>) {
    match op
    case GetOp(key) =>
      && m' == m && r.status == (if key in m then Ok else NotFound)
      && (r.status == Ok ==> m[key] == Value(r.value, r.binary))
    case IterateOp => m' == m && Lists(r.pairs, m)
    case CompactOp => m' == m && r.status == Ok
    case SetOp(key, value, binary) =>
      if key == [] || |value| > MAX_LEN then r.status == ErrBadValue && m' == m
      else if value == [] then r.status == (if key in m then Ok else NotFound) && m' == m - {key}
      else if Storable(m[key := Value(value, binary)], size) then
        r.status == Ok && m' == m[key := Value(value, binary)]
      else r.status == ErrFull && (m' == m || m' == m - {key})
  }

  /** The length of the key, if there is one, fits in 16 bits. */
  predicate KeyFits(op: Op) {
    op.SetOp? || op.GetOp? ==> |op.key| <= MAX_LEN
  }

  /** The operation as the code takes it: a key whose length does not fit is cut off. */
  function Heard(op: Op): Op {
    if KeyFits(op) then op else op.(key := Cut(op.key))
  }

  /** The operation is a set that misplaces its value. */
  ghost predicate Misplacing(op: Op, log: seq<Entry>, size: nat, force: bool) {
    && op.SetOp? && op.key != [] && |op.value| <= MAX_LEN
    && SetMisplaces(log, size, force, op.key, Value(op.value, op.binary))
  }

  lemma {:induction false} InUseBase(s: Store)
    requires s.Valid()
    ensures s.curBase != 0
  {
  }

  lemma {:induction false} SetAnswers(op: Op, status: Status, log0: seq<Entry>, size: nat, force: bool,
                                      log1: seq<Entry>)
    requires op.SetOp? && op.key != [] && |op.value| <= MAX_LEN && Settled(log0) && WellFormed(log1)
    requires LogOk(log0) && REGION_HEADER_SIZE + Size(log0) <= size
    requires SetDone(log0, size, force, op.key, Value(op.value, op.binary), status, log1)
    requires !Misplacing(op, log0, size, force)
    ensures Settled(log1) && Answers(size, View(Table(log0)), op, Reply(status, [], false, []), View(Table(log1)))
  {
    hide SetDone, SetMisplaces, Settled, View, Table, PlanSet, WellFormed, LogOk, Size, Storable;
    var v := Value(op.value, op.binary);
    SetRefines(log0, size, force, op.key, v, status, log1);
    SetFullOnly(log0, size, force, op.key, v, status, log1);
    if op.value != [] {
      RefusedExact(log0, size, force, op.key, v);
    } else {
      assert op.key !in View(Table(log0)) ==> View(Table(log0)) - {op.key} == View(Table(log0));
    }
  }

  lemma {:induction false} SetFullOnly(log0: seq<Entry>, size: nat, force: bool, key: Data, v: Value, status: Status,
                                       log1: seq<Entry>)
    requires SetDone(log0, size, force, key, v, status, log1)
    ensures status == ErrFull <==> v.data != [] && !Stored(Table(log0), key, v)
                                   && PlanSet(log0, size, force, key, v.data).Full?
    ensures status == NotFound ==> v.data == []
  {
  }

  lemma {:induction false} CompactSettles(log: seq<Entry>)
    requires WellFormed(log) && Single(Table(log)) && Orphans(log) == 0
    ensures Settled(log)
  {
  }

  /** One operation. */
  method Step(s: Store, op: Op) returns (r: Reply)
    requires s.Valid()
    modifies s, s.chip
    ensures s.Valid() && s.area == old(s.area) && s.regionSize == old(s.regionSize)
    ensures Settled(old(s.log)) && !Misplacing(Heard(op), old(s.log), s.regionSize, old(s.forceCompact)) ==>
              Settled(s.log) && Answers(s.regionSize, View(Table(old(s.log))), Heard(op), r, View(Table(s.log)))
  {
    hide Settled, Table, View, SetDone, SetCuts, SetCompacts, SetMisplaces, Single, HasUnused, DeadSize, Orphans,
      AllShow, Grew, Lists, Cut, Sound, WellFormed, Shape, LogOk, PairOk, Storable, Size;
    InUseBase(s);
    match op
    case SetOp(key, value, binary) =>
      r := SetStep(s, op);
    case GetOp(key) =>
      var status, value, binary := s.Get(key);
      r := Reply(status, value, binary, []);
    case CompactOp =>
      var status := s.Compact();
      r := Reply(status, [], false, []);
      s.Parts();
      CompactSettles(s.log);
    case IterateOp =>
      var pairs := Iterate(s);
      r := Reply(Ok, [], false, pairs);
  }

  method SetStep(s: Store, op: Op) returns (r: Reply)
    requires s.Valid() && op.SetOp?
    modifies s, s.chip
    ensures s.Valid() && s.area == old(s.area) && s.regionSize == old(s.regionSize)
    ensures Settled(old(s.log)) && !Misplacing(Heard(op), old(s.log), s.regionSize, old(s.forceCompact)) ==>
              Settled(s.log) && Answers(s.regionSize, View(Table(old(s.log))), Heard(op), r, View(Table(s.log)))
  {
    hide Settled, Table, View, SetDone, SetCuts, SetCompacts, SetMisplaces, Cut, Storable, Size, LogOk, Store.Valid,
      WellFormed;
    InUseBase(s);
    LogFits(s);
    ghost var log0, force := s.log, s.forceCompact;
    var status;
    ghost var k1, k2;
    status, k1, k2 := s.Set(op.key, op.value, op.binary);
    r := Reply(status, [], false, []);
    if Heard(op).key != [] && |op.value| <= MAX_LEN && Settled(log0)
       && !Misplacing(Heard(op), log0, s.regionSize, force) {
      LogFits(s);
      SetAnswers(Heard(op), status, log0, s.regionSize, force, s.log);
    }
  }

  lemma {:induction false} LogFits(s: Store)
    requires s.Valid()
    ensures WellFormed(s.log) && LogOk(s.log) && REGION_HEADER_SIZE + Size(s.log) <= s.regionSize
  {
    s.Parts();
  }

  /** The models start with m, and the replies are those of a map for as long as the models go. */
  ghost predicate Followed(size: nat, m: map<Data, Value>, ops: seq<Op>, replies: seq<Reply>,
                           models: seq<map<Data, Value>>) {
    && 1 <= |models| <= |replies| + 1 && |replies| <= |ops| && models[0] == m
    && forall i :: 0 <= i < |models| - 1 ==> Answers(size, models[i], Heard(ops[i]), replies[i], models[i + 1])
  }

  /** The models go to the end, or to a set that misplaces its value. */
  ghost predicate Outcome(ops: seq<Op>, models: seq<map<Data, Value>>, m: map<Data, Value>, at: seq<Entry>, size: nat,
                          force: bool) {
    && 1 <= |models| <= |ops| + 1
    && if |models| == |ops| + 1 then m == models[|ops|]
       else View(Table(at)) == models[|models| - 1] && Misplacing(Heard(ops[|models| - 1]), at, size, force)
  }

  /**
   * Every run from a settled store answers like a finite map, up to the first set
   * that misplaces its value, if there is one.  `models[i]` is the map before
   * operation i; `at` and `force` describe the store when the run left the map.
   */
  method Run(s: Store, ops: seq<Op>)
    returns (replies: seq<Reply>, ghost models: seq<map<Data, Value>>, ghost at: seq<Entry>, ghost force: bool)
    requires s.Valid()
    modifies s, s.chip
    ensures s.Valid() && s.regionSize == old(s.regionSize)
    ensures |replies| == |ops| && Followed(s.regionSize, old(s.Params()), ops, replies, models)
    ensures Settled(old(s.log)) ==>
              && Outcome(ops, models, s.Params(), at, s.regionSize, force)
              && (|models| == |ops| + 1 ==> Settled(s.log))
  {
    hide Settled, Table, View, Answers, Misplacing, Heard;
    replies, models, at, force := [], [View(Table(s.log))], s.log, s.forceCompact;
    while |replies| < |ops|
      invariant s.Valid() && s.regionSize == old(s.regionSize)
      invariant |replies| <= |ops| && Followed(s.regionSize, old(s.Params()), ops, replies, models)
      invariant Settled(old(s.log)) ==>
          if |models| == |replies| + 1 then View(Table(s.log)) == models[|replies|] && Settled(s.log)
          else View(Table(at)) == models[|models| - 1] && Misplacing(Heard(ops[|models| - 1]), at, s.regionSize, force)
    {
      ghost var n, op, log0, force0 := |replies|, ops[|replies|], s.log, s.forceCompact;
      var r := Step(s, ops[|replies|]);
      replies := replies + [r];
      if Settled(old(s.log)) && |models| == n + 1 {
        if Misplacing(Heard(op), log0, s.regionSize, force0) {
          at, force := log0, force0;
        } else {
          models := models + [View(Table(s.log))];
        }
      }
    }
  }

  // ---------------------------------------------------------------- power cuts

  /** Flash that shows m boots to m, given that the scan reaches the area. */
  lemma {:induction false} ShowsBoots(mem: seq<Byte>, a: Area, f: Face, base: nat, top: nat, k: nat)
    requires Shows(mem, a, f) && (HasMagic(mem, a.lo) || Clean(mem, a)) && Ahead(mem, a, base, k)
    requires ScanTop(base, top) > if HasMagic(mem, a.lo) then a.lo else a.Hi()
    ensures AreaOk(a, |mem|) && Bootable(mem, a, base, top) && BootView(mem, a) == f.m
    ensures Settled(BootLog(mem, a)) == f.tidy
  {
    hide Sound, View, Table, HasMagic;
  }

  /**
   * Power up on whatever the flash holds: every state that a set, a compaction or an
   * interrupted boot leaves behind shows some map m, and a fresh start finds exactly m.
   */
  method Reboot(mem: seq<Byte>, pageSize: nat, base: nat, top: nat, ghost a: Area, ghost f: Face,
                ghost k: nat)
    returns (s: Store)
    requires pageSize > 0 && |mem| <= MAX_CHIP_SIZE
    requires Shows(mem, a, f) && (HasMagic(mem, a.lo) || Clean(mem, a)) && Ahead(mem, a, base, k)
    requires ScanTop(base, top) > if HasMagic(mem, a.lo) then a.lo else a.Hi()
    ensures fresh(s) && fresh(s.chip) && s.Valid() && s.Params() == f.m && Settled(s.log) == f.tidy && s.area == a
    ensures AreaOk(a, |mem|) && s.log == BootLog(mem, a)
  {
    hide Shows, Clean, Ahead, Bootable, BootView, BootLog, AllShow, Grew, InitStatus;
    ShowsBoots(mem, a, f, base, top, k);
    var chip := new Chip(pageSize, mem);
    s := new Store(chip);
    var status := s.Init(base, top, a);
  }

  /** One call of Set: the logs and the flash histories around it, and the switching points. */
  datatype Trace = Trace(key: Data, v: Value, size: nat, force: bool, status: Status, log0: seq<Entry>,
                         log1: seq<Entry>, h0: seq<seq<Byte>>, h1: seq<seq<Byte>>, a: Area, k1: nat, k2: nat)
  {
    ghost predicate Compacts() {
      SetCompacts(log0, size, force, key, v)
    }

    /** What Set ensures. */
    ghost predicate Happened() {
      && WellFormed(log1) && SetDone(log0, size, force, key, v, status, log1)
      && SetCuts(h1, h0, a, key, Compacts(), FaceOf(log0), FaceOf(log1), k1, k2)
    }

    /** What a cut after write i shows. */
    ghost function At(i: nat): Face {
      if i < k1 then FaceOf(log0) else if i < k2 then Middle(FaceOf(log0), key, Compacts()) else FaceOf(log1)
    }

    /** The cut falls between the write of the new value and the deletion of the old one. */
    ghost predicate Between(i: nat) {
      !Compacts() && k1 <= i < k2
    }
  }

  /** Every set of a legal key and value leaves a trace. */
  method Record(s: Store, key: Data, value: Data, binary: bool) returns (status: Status, ghost x: Trace)
    requires s.Valid() && (if |key| <= MAX_LEN then key else Cut(key)) != [] && |value| <= MAX_LEN
    modifies s, s.chip
    ensures s.Valid() && x.Happened()
    ensures x.key == if |key| <= MAX_LEN then key else Cut(key)
    ensures x.v == Value(value, binary) && x.status == status && x.force == old(s.forceCompact)
    ensures x.size == s.regionSize && x.a == s.area && x.log0 == old(s.log) && x.log1 == s.log
    ensures x.h0 == old(s.chip.history) && x.h1 == s.chip.history
  {
    hide SetDone, SetCuts, SetCompacts, WellFormed, FaceOf;
    ghost var log0, h0, force := s.log, s.chip.history, s.forceCompact;
    ghost var k1, k2;
    InUseBase(s);
    status, k1, k2 := s.Set(key, value, binary);
    s.Parts();
    x := Trace(if |key| <= MAX_LEN then key
        else Cut(key), Value(value, binary), s.regionSize, force, status, log0, s.log,
      h0, s.chip.history, s.area, k1, k2);
  }

  /**
   * A set from a settled log that does not misplace its value: a cut leaves a log that is not
   * settled if and only if it falls between the write of the new value and the deletion of the
   * old one.  That is the last write but one, and the key had a value that the cut still shows.
   */
  lemma {:induction false} CutSettled(x: Trace, i: nat)
    requires x.Happened() && Settled(x.log0) && !SetMisplaces(x.log0, x.size, x.force, x.key, x.v)
    requires |x.h0| <= i < |x.h1|
    ensures Shows(x.h1[i], x.a, x.At(i)) && (x.At(i).tidy <==> !x.Between(i))
    ensures var m0 := View(Table(x.log0));
            && x.At(i).m in {m0, m0 - {x.key}, View(Table(x.log1))}
            && (x.Between(i) ==> i == |x.h1| - 2 && x.key in m0 && x.At(i).m == m0)
  {
    hide Shows, SetDone, SetMisplaces, SetCompacts, Settled, Table, View, WellFormed;
    SetRefines(x.log0, x.size, x.force, x.key, x.v, x.status, x.log1);
  }

  /**
   * A set, a cut after any of its writes, a fresh start and any run of operations: the start
   * finds the parameters of that cut, and unless the cut fell between the write of the new value
   * and the deletion of the old one the run answers like a finite map that begins with them.
   */
  method Resume(mem: seq<Byte>, pageSize: nat, base: nat, top: nat, ops: seq<Op>, ghost x: Trace, ghost i: nat,
                ghost k: nat)
    returns (s: Store, replies: seq<Reply>, ghost models: seq<map<Data, Value>>, ghost at: seq<Entry>,
        ghost force: bool)
    requires x.Happened() && Settled(x.log0) && !SetMisplaces(x.log0, x.size, x.force, x.key, x.v)
    requires |x.h0| <= i < |x.h1| && mem == x.h1[i]
    requires pageSize > 0 && |mem| <= MAX_CHIP_SIZE
    requires (HasMagic(mem, x.a.lo) || Clean(mem, x.a)) && Ahead(mem, x.a, base, k)
    requires ScanTop(base, top) > if HasMagic(mem, x.a.lo) then x.a.lo else x.a.Hi()
    ensures s.Valid() && |replies| == |ops| && Followed(s.regionSize, x.At(i).m, ops, replies, models)
    ensures !x.Between(i) ==> Outcome(ops, models, s.Params(), at, s.regionSize, force)
  {
    hide *;
    CutSettled(x, i);
    s := Reboot(mem, pageSize, base, top, x.a, x.At(i), k);
    replies, models, at, force := Run(s, ops);
  }

  lemma {:induction false} FreshBoots(mem: seq<Byte>, a: Area, base: nat)
    requires Sound(mem, a, base, []) && base == a.lo && base % SECTOR_SIZE == 0
    ensures Bootable(mem, a, base, 0) && BootLog(mem, a) == [] && Settled([])
  {
    SoundBoots(mem, a, base, []);
    hide *;
    ScansItself(mem, a, base);
  }

  lemma {:induction false} ScansItself(mem: seq<Byte>, a: Area, base: nat)
    requires Sound(mem, a, base, []) && base == a.lo && base % SECTOR_SIZE == 0
    requires Sound(mem, a, BootBase(mem, a), BootLog(mem, a))
    ensures Bootable(mem, a, base, 0) && Settled([])
  {
    ReadRegionHeader(mem, base, a.sectors, false, true);
    assert Ahead(mem, a, base, 0);
  }

  /**
   * From a chip to a store: an area is created and brought up, and every run of operations on
   * it answers like a finite map that starts out empty.
   */
  method FromScratch(pageSize: nat, mem: seq<Byte>, base: nat, numSectors: nat, force: bool, ops: seq<Op>)
    returns (s: Store, status: Status, replies: seq<Reply>, ghost models: seq<map<Data, Value>>, ghost at: seq<Entry>,
        ghost forced: bool)
    requires pageSize > 0 && |mem| <= MAX_CHIP_SIZE && base > 0
    ensures status == Ok <==>
              && numSectors >= 1 && numSectors % 2 == 0
              && base % SECTOR_SIZE == 0 && base + numSectors * SECTOR_SIZE <= |mem|
              && (force || ErasedFrom(mem, base, base + numSectors * SECTOR_SIZE))
    ensures status == Ok ==>
              && s.Valid() && s.regionSize == numSectors / 2 * SECTOR_SIZE
              && |replies| == |ops| && Followed(s.regionSize, map[], ops, replies, models)
              && Outcome(ops, models, s.Params(), at, s.regionSize, forced)
  {
    hide Bootable, BootView, BootLog, AllShow, Grew, InitStatus, Sound, Settled, Misplacing, Answers, Store.Valid;
    replies, models, at, forced := [], [], [], false;
    var chip := new Chip(pageSize, mem);
    s := new Store(chip);
    status := s.CreateArea(base, numSectors, force);
    if status == Ok {
      ghost var a := Area(base, numSectors / 2);
      FreshBoots(chip.mem, a, base);
      status := s.Init(base, 0, a);
      s.Parts();
      EmptyView();
      replies, models, at, forced := Run(s, ops);
    }
  }

  lemma {:induction false} EmptyView()
    ensures View(Table([])) == map[]
  {
  }
}
