/**
 * What the flash holds after, and at every write during, the three steps that
 * core/sysparam.c takes: appending an entry to the current region, killing a
 * value in it, and filling the other region for a compaction.
 */
module SysparamSteps {
  import opened Bytes
  import opened Flash
  import opened SysparamLog
  import opened SysparamTable
  import opened SysparamPack
  import opened SysparamRegion
  import opened SysparamBoot
  import opened SysparamFlash

  /** Cutting the power after any of the writes n, ..., k - 1 leaves flash that boots to m. */
  ghost predicate AllShow(h: seq<seq<Byte>>, n: nat, k: nat, a: Area, m: Face) {
    n <= k <= |h| && forall i :: n <= i < k ==> Shows(h[i], a, m)
  }

  /** Every such cut shows the parameters m, settled or not. */
  ghost predicate AllHold(h: seq<seq<Byte>>, n: nat, k: nat, a: Area, m: map<Data, Value>) {
    n <= k <= |h| && forall i :: n <= i < k ==> ShowsMap(h[i], a, m)
  }

  lemma {:induction false} HoldJoin(h: seq<seq<Byte>>, n: nat, k: nat, j: nat, a: Area, f0: Face, f1: Face)
    requires AllShow(h, n, k, a, f0) && AllShow(h, k, j, a, f1) && f0.m == f1.m
    ensures AllHold(h, n, j, a, f0.m)
    ensures f0 == f1 ==> AllShow(h, n, j, a, f0)
  {
    hide Shows;
    assert f0 == Face(f0.m, f0.tidy) && f1 == Face(f0.m, f1.tidy);
  }

  lemma {:induction false} ShowLast(h: seq<seq<Byte>>, n: nat, last: seq<Byte>, a: Area, cur: nat, log: seq<Entry>)
    requires n == |h| && Sound(last, a, cur, log)
    ensures AllShow(h + [last], n, n + 1, a, FaceOf(log))
  {
    SoundShows(last, a, cur, log);
  }

  ghost predicate Grew(h: seq<seq<Byte>>, h0: seq<seq<Byte>>) {
    |h0| <= |h| && h[..|h0|] == h0
  }

  // ---------------------------------------------------------------- appending

  /** Entry e can be added at the end of the log. */
  ghost predicate Appendable(log: seq<Entry>, base: nat, end: nat, e: Entry) {
    EntryOk(e) && IsLive(e.head) && Fits(Table(log), e) && EndOf(base, log) + EntrySize(e) <= end
  }

  lemma {:induction false} FreeSpace(m: seq<Byte>, base: nat, end: nat, log: seq<Entry>, e: Entry)
    requires Shape(m, base, end, log) && Appendable(log, base, end, e)
    ensures EntryOk(e) && IsLive(e.head)
    ensures var p := EndOf(base, log);
            && EntrySize(e) == ENTRY_HEADER_SIZE + |e.data| && base + REGION_HEADER_SIZE <= p
            && InChip(m, p, EntrySize(e)) && ErasedFrom(m, p, p + EntrySize(e))
  {
  }

  /** An entry still marked invalid is part of the log but of no row. */
  lemma {:induction false} PartialAppend(m0: seq<Byte>, m: seq<Byte>, a: Area, cur: nat, log: seq<Entry>, e: Entry)
    requires Sound(m0, a, cur, log) && EntryOk(e) && EndOf(cur, log) + EntrySize(e) <= cur + a.RegionSize()
    requires SameOutside(m, m0, EndOf(cur, log), EndOf(cur, log) + EntrySize(e))
    requires HeadAt(m, EndOf(cur, log), e.head.(invalid := true), |e.data|)
    ensures Shows(m, a, FaceOf(log))
  {
    hide PairOk, Shape, Size, Table, View, WellFormed;
    var p := EndOf(cur, log);
    ShapeEnds(m0, cur, cur + a.RegionSize(), log);
    var half := Entry(e.head.(invalid := true), m[p + ENTRY_HEADER_SIZE..p + EntrySize(e)]);
    HalfWritten(m, p, half);
    ShapeAppend(m0, m, cur, cur + a.RegionSize(), log, half);
    TableAppend(log, half);
    WiderChange(m, m0, p, p + EntrySize(e), cur + REGION_HEADER_SIZE, cur + a.RegionSize());
    InsideCurrent(m0, m, a, cur, log, log + [half]);
    SoundShows(m, a, cur, log + [half]);
  }

  lemma {:induction false} ShapeEnds(mem: seq<Byte>, base: nat, end: nat, log: seq<Entry>)
    requires Shape(mem, base, end, log)
    ensures base + REGION_HEADER_SIZE <= EndOf(base, log) <= end <= |mem| && LogOk(log)
  {
  }

  lemma {:induction false} HalfWritten(m: seq<Byte>, p: nat, e: Entry)
    requires EntryOk(e) && InChip(m, p, EntrySize(e)) && HeadAt(m, p, e.head, |e.data|)
    requires e.data == m[p + ENTRY_HEADER_SIZE..p + EntrySize(e)]
    ensures m[p..p + EntrySize(e)] == Encode(e)
  {
    assert m[p..p + EntrySize(e)] == m[p..p + ENTRY_HEADER_SIZE] + m[p + ENTRY_HEADER_SIZE..p + EntrySize(e)];
  }

  lemma {:induction false} WiderChange(a: seq<Byte>, b: seq<Byte>, from: nat, to: nat, from': nat, to': nat)
    requires SameOutside(a, b, from, to) && from' <= from && to <= to'
    ensures SameOutside(a, b, from', to')
  {
  }

  /** The finished entry is part of the log. */
  lemma {:induction false} AppendDone(m0: seq<Byte>, m: seq<Byte>, a: Area, cur: nat, log: seq<Entry>, e: Entry)
    requires Sound(m0, a, cur, log) && EntryOk(e) && EndOf(cur, log) + EntrySize(e) <= cur + a.RegionSize()
    requires Fits(Table(log), e) && InChip(m0, EndOf(cur, log), EntrySize(e))
    requires m == Splice(m0, EndOf(cur, log), Encode(e))
    ensures Sound(m, a, cur, log + [e]) && EndOf(cur, log + [e]) == EndOf(cur, log) + EntrySize(e)
    ensures Table(log + [e]) == Apply(Table(log), e)
  {
    hide PairOk, Shape, Size, Table, View, WellFormed, Splice, Encode, Fits;
    var p := EndOf(cur, log);
    ShapeEnds(m0, cur, cur + a.RegionSize(), log);
    SpliceSame(m0, p, Encode(e));
    ShapeAppend(m0, m, cur, cur + a.RegionSize(), log, e);
    TableAppend(log, e);
    SizeAppend(log, e);
    WiderChange(m, m0, p, p + EntrySize(e), cur + REGION_HEADER_SIZE, cur + a.RegionSize());
    InsideCurrent(m0, m, a, cur, log, log + [e]);
  }

  /** Until the last write of an append, a cut shows what was there before. */
  lemma {:induction false} AppendCuts(h0: seq<seq<Byte>>, h: seq<seq<Byte>>, m0: seq<Byte>, m: seq<Byte>, a: Area,
                                      cur: nat, log: seq<Entry>, e: Entry)
    requires Sound(m0, a, cur, log) && EntryOk(e) && EndOf(cur, log) + EntrySize(e) <= cur + a.RegionSize()
    requires Trail(h, h0, m0, m, EndOf(cur, log), EndOf(cur, log) + ENTRY_HEADER_SIZE + |e.data|) && |h0| < |h|
    requires WritingEntry(h, |h0|, EndOf(cur, log), e.head, |e.data|)
    ensures AllShow(h, |h0|, |h| - 1, a, FaceOf(log))
  {
    hide Sound, Shows, HeadAt, Size, SameOutside;
    forall i | |h0| <= i < |h| - 1
      ensures Shows(h[i], a, FaceOf(log))
    {
      PartialAppend(m0, h[i], a, cur, log, e);
    }
  }

  /** Appending an entry: the old parameters show until the last write, the new ones from then on. */
  lemma {:induction false} Appended(h0: seq<seq<Byte>>, h: seq<seq<Byte>>, m0: seq<Byte>, m: seq<Byte>, a: Area,
                                    cur: nat, log: seq<Entry>, e: Entry)
    requires Sound(m0, a, cur, log) && Appendable(log, cur, cur + a.RegionSize(), e)
    requires InChip(m0, EndOf(cur, log), EntrySize(e)) && m == Splice(m0, EndOf(cur, log), Encode(e))
    requires Trail(h, h0, m0, m, EndOf(cur, log), EndOf(cur, log) + ENTRY_HEADER_SIZE + |e.data|) && |h0| < |h|
    requires WritingEntry(h, |h0|, EndOf(cur, log), e.head, |e.data|)
    ensures Sound(m, a, cur, log + [e]) && EndOf(cur, log + [e]) == EndOf(cur, log) + EntrySize(e)
    ensures Table(log + [e]) == Apply(Table(log), e)
    ensures Grew(h, h0) && AllShow(h, |h0|, |h| - 1, a, FaceOf(log))
    ensures AllShow(h, |h| - 1, |h|, a, FaceOf(log + [e]))
    ensures SameOutside(m, m0, cur, cur + a.RegionSize())
  {
    hide Sound, Shows, HeadAt, Size, SameOutside, Splice, Encode, Table, View, WritingEntry;
    AppendDone(m0, m, a, cur, log, e);
    AppendCuts(h0, h, m0, m, a, cur, log, e);
    SoundShows(m, a, cur, log + [e]);
    WiderChange(m, m0, EndOf(cur, log), EndOf(cur, log) + EntrySize(e), cur, cur + a.RegionSize());
  }

  // ------------------------------------------------------------------ killing

  /** Entry v is the live value that a lookup of row r finds. */
  ghost predicate FirstValue(log: seq<Entry>, v: nat, r: nat) {
    && v < |log| && IsLiveValue(log[v].head) && log[v].head.id == r + 1
    && r < |Table(log)| && Table(log)[r].values != [] && Table(log)[r].values[0] == ValueOf(log[v])
    && r < |Table(log[..v])| && Table(log[..v])[r].values == []
  }

  /** Clearing ALIVE of the value in use takes it out of its row. */
  lemma {:induction false} KillDone(m0: seq<Byte>, m: seq<Byte>, a: Area, cur: nat, log: seq<Entry>, v: nat, r: nat)
    requires Sound(m0, a, cur, log) && FirstValue(log, v, r) && EntryOk(log[v])
    requires InChip(m0, AddrOf(cur, log, v), ENTRY_HEADER_SIZE)
    requires m == Splice(m0, AddrOf(cur, log, v), Header(Word(Killed(log[v]).head), |log[v].data|))
    ensures Sound(m, a, cur, log[v := Killed(log[v])]) && EndOf(cur, log[v := Killed(log[v])]) == EndOf(cur, log)
    ensures Table(log[v := Killed(log[v])]) == DropFirst(Table(log), r)
    ensures Orphans(log[v := Killed(log[v])]) == Orphans(log)
  {
    hide PairOk, Shape, Size, Table, View, WellFormed, Splice, Header, Word, Orphans;
    var p := AddrOf(cur, log, v);
    ShapeEnds(m0, cur, cur + a.RegionSize(), log);
    EntryInside(m0, cur, cur + a.RegionSize(), log, v);
    EncodeRehead(log, v, Killed(log[v]).head);
    ShapeRehead(m0, m, cur, cur + a.RegionSize(), log, v, Killed(log[v]).head);
    KillValue(log, v);
    KillOrphans(log, v);
    SpliceSame(m0, p, Header(Word(Killed(log[v]).head), |log[v].data|));
    WiderChange(m, m0, p, p + ENTRY_HEADER_SIZE, cur + REGION_HEADER_SIZE, cur + a.RegionSize());
    InsideCurrent(m0, m, a, cur, log, log[v := Killed(log[v])]);
  }

  /** The value that a row shows stays the same when another one is added. */
  lemma {:induction false} FirstValueStays(log: seq<Entry>, v: nat, r: nat, e: Entry)
    requires FirstValue(log, v, r)
    ensures FirstValue(log + [e], v, r)
  {
    TableAppend(log, e);
    assert (log + [e])[..v] == log[..v];
  }

  /** The other region is marked stale and still holds the log that was compacted away. */
  ghost predicate Superseded(m: seq<Byte>, a: Area, cur: nat, log0: seq<Entry>) {
    && a.sectors <= 0xfff && Shape(m, a.Other(cur), a.Other(cur) + a.RegionSize(), log0)
    && HasHeader(m, a.Other(cur), a.sectors, cur == a.lo, false)
  }

  lemma {:induction false} SupersededKept(m0: seq<Byte>, m: seq<Byte>, a: Area, cur: nat, log0: seq<Entry>)
    requires Superseded(m0, a, cur, log0) && SameOutside(m, m0, cur, cur + a.RegionSize()) && a.IsBase(cur)
    ensures Superseded(m, a, cur, log0)
  {
    hide Shape;
    ShapeSame(m0, m, a.Other(cur), a.Other(cur) + a.RegionSize(), log0);
    ShapeEnds(m0, a.Other(cur), a.Other(cur) + a.RegionSize(), log0);
    if a.sectors > 0 {
      HeaderSame(m0, m, a.Other(cur), a.sectors, cur == a.lo, false);
    }
  }

  /** Clearing a bit of an old entry in the stale region does not matter. */
  lemma {:induction false} KillStale(m0: seq<Byte>, m: seq<Byte>, a: Area, cur: nat, log: seq<Entry>, log0: seq<Entry>,
                                     v: nat)
    requires Sound(m0, a, cur, log) && Superseded(m0, a, cur, log0) && v < |log0|
    requires SameOutside(m, m0, AddrOf(a.Other(cur), log0, v), AddrOf(a.Other(cur), log0, v) + ENTRY_HEADER_SIZE)
    ensures Sound(m, a, cur, log)
  {
    hide HasMagic, Size, WellFormed, LogOk;
    EntryInside(m0, a.Other(cur), a.Other(cur) + a.RegionSize(), log0, v);
    HeaderSame(m0, m, cur, a.sectors, cur == a.Hi(), true);
    HeaderSame(m0, m, a.Other(cur), a.sectors, cur == a.lo, false);
    ShapeSame(m0, m, cur, cur + a.RegionSize(), log);
  }

  // ---------------------------------------------------- filling the other region

  /** Since h0 the writes have only touched the other region, and it has not looked like a region. */
  ghost predicate Quiet(h: seq<seq<Byte>>, h0: seq<seq<Byte>>, m0: seq<Byte>, a: Area, cur: nat) {
    && |h0| <= |h| && h[..|h0|] == h0
    && forall i :: |h0| <= i < |h| ==> QuietState(h[i], m0, a, cur)
  }

  ghost predicate QuietState(m: seq<Byte>, m0: seq<Byte>, a: Area, cur: nat) {
    SameOutside(m, m0, a.Other(cur), a.Other(cur) + a.RegionSize()) && !HasMagic(m, a.Other(cur))
  }

  /** The other region holds `filled`, still without a header; the current one is untouched. */
  ghost predicate Filling(m: seq<Byte>, m0: seq<Byte>, h: seq<seq<Byte>>, h0: seq<seq<Byte>>, a: Area, cur: nat,
                          log: seq<Entry>, filled: seq<Entry>) {
    && Sound(m0, a, cur, log) && Quiet(h, h0, m0, a, cur) && QuietState(m, m0, a, cur)
    && Shape(m, a.Other(cur), a.Other(cur) + a.RegionSize(), filled)
    && m[a.Other(cur)..a.Other(cur) + REGION_HEADER_SIZE] == Blank(REGION_HEADER_SIZE)
  }

  lemma {:induction false} QuietSound(m: seq<Byte>, m0: seq<Byte>, a: Area, cur: nat, log: seq<Entry>)
    requires Sound(m0, a, cur, log) && QuietState(m, m0, a, cur)
    ensures Sound(m, a, cur, log)
  {
    UnmarkedOther(m0, m, a, cur, log);
  }

  /** While the other region is being filled, every cut shows the current one. */
  lemma {:induction false} FillCuts(m: seq<Byte>, m0: seq<Byte>, h: seq<seq<Byte>>, h0: seq<seq<Byte>>, a: Area,
                                    cur: nat,
                 log: seq<Entry>, filled: seq<Entry>)
    requires Filling(m, m0, h, h0, a, cur, log, filled)
    ensures AllShow(h, |h0|, |h|, a, FaceOf(log))
    ensures Sound(m, a, cur, log)
  {
    hide Sound, Shows, QuietState, Shape;
    forall i | |h0| <= i < |h|
      ensures Shows(h[i], a, FaceOf(log))
    {
      QuietSound(h[i], m0, a, cur, log);
      SoundShows(h[i], a, cur, log);
    }
    QuietSound(m, m0, a, cur, log);
  }

  lemma {:induction false} FillStart(m0: seq<Byte>, m: seq<Byte>, h: seq<seq<Byte>>, h0: seq<seq<Byte>>, a: Area,
                                     cur: nat, log: seq<Entry>)
    requires Sound(m0, a, cur, log) && InChip(m0, a.Other(cur), a.RegionSize())
    requires m == Splice(m0, a.Other(cur), Blank(a.RegionSize()))
    requires Trail(h, h0, m0, m, a.Other(cur), a.Other(cur) + a.RegionSize()) && Unmarked(h, |h0|, a.Other(cur))
    ensures Filling(m, m0, h, h0, a, cur, log, [])
  {
    var alt, n := a.Other(cur), a.RegionSize();
    hide PairOk, Table, WellFormed;
    BlankUnmarked(m0, alt, n);
    SpliceSame(m0, alt, Blank(n));
    BlankShape(m, alt, alt + n);
  }

  lemma {:induction false} BlankShape(m: seq<Byte>, base: nat, end: nat)
    requires base + REGION_HEADER_SIZE <= end <= |m| && m[base..end] == Blank(end - base)
    ensures Shape(m, base, end, [])
    ensures m[base..base + REGION_HEADER_SIZE] == Blank(REGION_HEADER_SIZE)
  {
    assert forall k :: base <= k < end ==> m[k] == m[base..end][k - base] == ERASED;
  }

  /** One more entry in the other region. */
  lemma {:induction false} FillStep(m0: seq<Byte>, h0: seq<seq<Byte>>, a: Area, cur: nat, log: seq<Entry>,
                                    filled: seq<Entry>, e: Entry,
                 m: seq<Byte>, h: seq<seq<Byte>>, m': seq<Byte>, h': seq<seq<Byte>>)
    requires Filling(m, m0, h, h0, a, cur, log, filled) && EntryOk(e)
    requires var p := EndOf(a.Other(cur), filled);
             && p + EntrySize(e) <= a.Other(cur) + a.RegionSize() && InChip(m, p, EntrySize(e))
             && m' == Splice(m, p, Encode(e))
             && Trail(h', h, m, m', p, p + ENTRY_HEADER_SIZE + |e.data|)
    ensures Filling(m', m0, h', h0, a, cur, log, filled + [e])
    ensures EndOf(a.Other(cur), filled + [e]) == EndOf(a.Other(cur), filled) + EntrySize(e)
  {
    hide Sound, Shape, Size, Splice, Encode, HasMagic, SameOutside;
    var alt, n, p := a.Other(cur), a.RegionSize(), EndOf(a.Other(cur), filled);
    ShapeEnds(m, alt, alt + n, filled);
    SpliceSame(m, p, Encode(e));
    forall i | |h| <= i < |h'|
      ensures QuietState(h'[i], m0, a, cur)
    {
      StillQuiet(m, h'[i], m0, a, cur, p, p + EntrySize(e));
    }
    assert forall i :: |h0| <= i < |h| ==> h'[i] == h'[..|h|][i];
    assert h'[..|h0|] == h'[..|h|][..|h0|];
    StillQuiet(m, m', m0, a, cur, p, p + EntrySize(e));
    FillShape(m, m', alt, alt + n, filled, e);
    SizeAppend(filled, e);
  }

  lemma {:induction false} StillQuiet(m: seq<Byte>, m': seq<Byte>, m0: seq<Byte>, a: Area, cur: nat, from: nat, to: nat)
    requires QuietState(m, m0, a, cur) && SameOutside(m', m, from, to)
    requires a.Other(cur) + REGION_HEADER_SIZE <= from && to <= a.Other(cur) + a.RegionSize()
    ensures QuietState(m', m0, a, cur)
  {
  }

  lemma {:induction false} FillShape(m: seq<Byte>, m': seq<Byte>, base: nat, end: nat, log: seq<Entry>, e: Entry)
    requires Shape(m, base, end, log) && EntryOk(e) && EndOf(base, log) + EntrySize(e) <= end
    requires SameOutside(m', m, EndOf(base, log), EndOf(base, log) + EntrySize(e))
    requires m'[EndOf(base, log)..EndOf(base, log) + EntrySize(e)] == Encode(e)
    ensures Shape(m', base, end, log + [e])
    ensures m'[base..base + REGION_HEADER_SIZE] == m[base..base + REGION_HEADER_SIZE]
  {
    ShapeAppend(m, m', base, end, log, e);
    assert SameInside(m, m', base, base + REGION_HEADER_SIZE);
    SameSlice(m, m', base, base + REGION_HEADER_SIZE);
  }

  // ---------------------------------------------------------------- switching

  /** The state after the other region has been marked active. */
  lemma {:induction false} MarkedNew(m: seq<Byte>, m1: seq<Byte>, a: Area, cur: nat, log: seq<Entry>,
                                     filled: seq<Entry>)
    requires Sound(m, a, cur, log) && Shape(m, a.Other(cur), a.Other(cur) + a.RegionSize(), filled)
    requires WellFormed(filled)
    requires HasHeader(m1, a.Other(cur), a.sectors, a.Other(cur) == a.Hi(), true)
    requires SameOutside(m1, m, a.Other(cur), a.Other(cur) + REGION_HEADER_SIZE)
    ensures a.IsBase(cur) && Sound(m1, a, a.lo, if cur == a.lo then log else filled)
    ensures HasHeader(m1, cur, a.sectors, cur == a.Hi(), true)
    ensures Shape(m1, cur, cur + a.RegionSize(), log) && Shape(m1, a.Other(cur), a.Other(cur) + a.RegionSize(), filled)
  {
    hide Shape, HasHeader, WellFormed, HasMagic;
    var alt, n := a.Other(cur), a.RegionSize();
    HeaderSame(m, m1, cur, a.sectors, cur == a.Hi(), true);
    ShapeSame(m, m1, cur, cur + n, log);
    ShapeSame(m, m1, alt, alt + n, filled);
    BothActive(m1, a, cur, log, alt, filled);
  }

  /** The state after the old region has been marked stale too. */
  lemma {:induction false} MarkedOld(m1: seq<Byte>, m2: seq<Byte>, a: Area, cur: nat, log: seq<Entry>,
                                     filled: seq<Entry>)
    requires AreaOk(a, |m1|) && a.IsBase(cur) && WellFormed(filled)
    requires HasHeader(m1, a.Other(cur), a.sectors, a.Other(cur) == a.Hi(), true)
    requires Shape(m1, cur, cur + a.RegionSize(), log) && Shape(m1, a.Other(cur), a.Other(cur) + a.RegionSize(), filled)
    requires HasHeader(m2, cur, a.sectors, cur == a.Hi(), false)
    requires SameOutside(m2, m1, cur, cur + REGION_HEADER_SIZE)
    ensures Sound(m2, a, a.Other(cur), filled) && Shape(m2, cur, cur + a.RegionSize(), log)
  {
    hide Shape, HasHeader, WellFormed, HasMagic;
    var alt, n := a.Other(cur), a.RegionSize();
    HeaderSame(m1, m2, alt, a.sectors, alt == a.Hi(), true);
    ShapeSame(m1, m2, cur, cur + n, log);
    ShapeSame(m1, m2, alt, alt + n, filled);
    Switched(m2, a, cur, alt, filled);
  }

  lemma {:induction false} ReadyToMark(m: seq<Byte>, m0: seq<Byte>, h: seq<seq<Byte>>, h0: seq<seq<Byte>>, a: Area,
                                       cur: nat,
                    log: seq<Entry>, filled: seq<Entry>)
    requires Filling(m, m0, h, h0, a, cur, log, filled)
    ensures AreaFits(a, |m|) && a.IsBase(cur) && a.IsBase(a.Other(cur)) && a.Other(a.Other(cur)) == cur
    ensures m[a.Other(cur)..a.Other(cur) + REGION_HEADER_SIZE] == Blank(REGION_HEADER_SIZE)
    ensures Sound(m, a, cur, log) && Shape(m, a.Other(cur), a.Other(cur) + a.RegionSize(), filled)
  {
    FillCuts(m, m0, h, h0, a, cur, log, filled);
  }

  /** The region to format lies inside the chip, on a sector boundary. */
  lemma {:induction false} AltRoom(m: seq<Byte>, a: Area, cur: nat, log: seq<Entry>)
    requires Sound(m, a, cur, log)
    ensures SECTOR_SIZE > 0 && a.sectors > 0 && a.RegionSize() / SECTOR_SIZE == a.sectors
    ensures a.sectors * SECTOR_SIZE == a.RegionSize()
    ensures InChip(m, a.Other(cur), a.RegionSize())
    ensures a.Other(cur) % SECTOR_SIZE == 0 && a.Other(cur) + a.RegionSize() <= |m|
    ensures EndOf(a.Other(cur), []) == a.Other(cur) + REGION_HEADER_SIZE
  {
  }

  /** Where the cut flips from the old log to the new one. */
  function Flip(h: seq<seq<Byte>>, a: Area, cur: nat): nat {
    if cur == a.lo then |h| + 1 else |h|
  }

  /** The two header writes that end a compaction. */
  lemma {:induction false} SwitchDone(m: seq<Byte>, m0: seq<Byte>, h: seq<seq<Byte>>, h0: seq<seq<Byte>>, a: Area,
                                      cur: nat,
                   log: seq<Entry>, filled: seq<Entry>, m1: seq<Byte>, m2: seq<Byte>)
    requires Filling(m, m0, h, h0, a, cur, log, filled) && WellFormed(filled)
    requires HasHeader(m1, a.Other(cur), a.sectors, a.Other(cur) == a.Hi(), true)
    requires SameOutside(m1, m, a.Other(cur), a.Other(cur) + REGION_HEADER_SIZE)
    requires HasHeader(m2, cur, a.sectors, cur == a.Hi(), false)
    requires SameOutside(m2, m1, cur, cur + REGION_HEADER_SIZE)
    ensures Sound(m2, a, a.Other(cur), filled) && Superseded(m2, a, a.Other(cur), log)
    ensures var all := h + [m1] + [m2];
            && AllShow(all, |h0|, Flip(h, a, cur), a, FaceOf(log))
            && AllShow(all, Flip(h, a, cur), |all|, a, FaceOf(filled))
  {
    hide Shape, HasHeader, WellFormed, HasMagic, SameOutside, PairOk, Shows, View, Table, QuietState;
    FillCuts(m, m0, h, h0, a, cur, log, filled);
    MarkedNew(m, m1, a, cur, log, filled);
    SoundShows(m1, a, a.lo, if cur == a.lo then log else filled);
    MarkedOld(m1, m2, a, cur, log, filled);
    SoundShows(m2, a, a.Other(cur), filled);
  }

  // ---------------------------------------------------------------- compacting

  /** The id a key has once the first r rows have been copied. */
  function IdAfter(t: Rows, r: nat, keyId: int): int
    requires r <= |t|
  {
    if 1 <= keyId <= r && t[keyId - 1].values != [] then |Packed(t[..keyId - 1], SkipOf(keyId))| + 1 else keyId
  }

  function SkipOf(keyId: int): int {
    if keyId >= 1 then keyId - 1 else NO_ROW
  }

  /** The first r rows have been copied to the other region. */
  ghost predicate Copied(filled: seq<Entry>, log: seq<Entry>, keyId0: int, r: nat, keyId: int, count: nat) {
    && r <= |Table(log)| && filled == PackedLog(Table(log)[..r], SkipOf(keyId0))
    && count == |Packed(Table(log)[..r], SkipOf(keyId0))|
    && keyId == IdAfter(Table(log), r, keyId0)
  }

  lemma {:induction false} CopyStart(log: seq<Entry>, keyId: int)
    ensures Copied([], log, keyId, 0, keyId, 0)
  {
    assert Table(log)[..0] == [];
  }

  /** Rows without a value are passed over. */
  lemma {:induction false} CopyNothing(filled: seq<Entry>, log: seq<Entry>, keyId0: int, r: nat, keyId: int, count: nat)
    requires Copied(filled, log, keyId0, r, keyId, count)
    ensures Copied(filled, log, keyId0, NextValued(Table(log), r), keyId, count)
  {
    PackedGap(Table(log), SkipOf(keyId0), r, NextValued(Table(log), r));
  }

  /** After the key of row n, its value is copied unless its id is the one looked for; that happens at most once. */
  lemma {:induction false} CopyRow(filled: seq<Entry>, log: seq<Entry>, keyId0: int, n: nat, keyId: int, count: nat)
    requires Copied(filled, log, keyId0, n, keyId, count) && n < |Table(log)| && Table(log)[n].values != []
    ensures var row := Table(log)[n];
            var key, value := KeyEntry(count + 1, row.key), ValueEntry(count + 1, row.values[0]);
            && (n + 1 == keyId ==> Copied(filled + [key], log, keyId0, n + 1, count + 1, count + 1))
            && (n + 1 != keyId ==> Copied(filled + [key] + [value], log, keyId0, n + 1, keyId, count + 1))
  {
    hide Packed, PackedLog, Table;
    var t, row, skip := Table(log), Table(log)[n], SkipOf(keyId0);
    PackedStep(t, skip, n);
    PackedBound(t[..n], skip);
    if 1 <= keyId0 <= n {
      PackedBound(t[..keyId0 - 1], skip);
    }
    assert n + 1 == keyId <==> n == skip;
    var key, value := KeyEntry(count + 1, row.key), ValueEntry(count + 1, row.values[0]);
    assert filled + [key] + [value] == filled + [key, value];
  }

  lemma {:induction false} CopyEnd(filled: seq<Entry>, log: seq<Entry>, keyId0: int, keyId: int, count: nat)
    requires Copied(filled, log, keyId0, |Table(log)|, keyId, count)
    ensures filled == PackedLog(Table(log), SkipOf(keyId0)) && count == |Packed(Table(log), SkipOf(keyId0))|
    ensures keyId == IdAfter(Table(log), |Table(log)|, keyId0)
  {
    assert Table(log)[..|Table(log)|] == Table(log);
  }

  /** The copy of the next row fits: it needs no more than the rows it stands for. */
  lemma {:induction false} CopyFits(filled: seq<Entry>, log: seq<Entry>, keyId0: int, n: nat, keyId: int, count: nat)
    requires Copied(filled, log, keyId0, n, keyId, count) && n < |Table(log)| && Table(log)[n].values != []
    requires LogOk(log) && WellFormed(log)
    ensures var row := Table(log)[n];
            && (n + 1 != keyId ==> Size(filled) + 2 * ENTRY_HEADER_SIZE + |row.key| + |row.values[0].data| <= Size(log))
            && Size(filled) + ENTRY_HEADER_SIZE + |row.key| <= Size(log)
            && count + 1 <= MAX_KEY_ID && |row.key| <= MAX_LEN && |row.values[0].data| <= MAX_LEN
  {
    var t, skip := Table(log), SkipOf(keyId0);
    CopyRow(filled, log, keyId0, n, keyId, count);
    hide Packed, PackedLog, Table, Copied;
    DistinctKeys(log);
    TableOk(log);
    PackedBound(t[..n], skip);
    PackedFits(log, skip, n);
    assert RowOk(t[n]);
  }
}
