/**
 * Which parameters a boot would show, given nothing but the bytes of the flash
 * (core/sysparam.c, sysparam_init), and how the steps of compaction look to it.
 */
module SysparamBoot {
  import opened Bytes
  import opened Flash
  import opened SysparamLog
  import opened SysparamTable
  import opened SysparamRegion

  /** A sysparam area: two adjoining regions of the same number of sectors. */
  datatype Area = Area(lo: nat, sectors: nat) {
    function RegionSize(): nat { sectors * SECTOR_SIZE }
    function Hi(): nat { lo + RegionSize() }
    function Other(base: nat): nat { if base == lo then Hi() else lo }
    predicate IsBase(base: nat) { base == lo || base == Hi() }
  }

  predicate AreaFits(a: Area, chipSize: nat) {
    && a.lo % SECTOR_SIZE == 0
    && 0 < a.sectors <= 0xfff
    && a.Hi() + a.RegionSize() <= chipSize
  }

  /** An area that sysparam can use; base 0 is how it says that there is none. */
  predicate AreaOk(a: Area, chipSize: nat) {
    0 < a.lo && AreaFits(a, chipSize)
  }

  // ----------------------------------------------------------- region headers

  /** Flags and size of a region share the bit layout of an entry's flags and id. */
  function RegionWord(sectors: nat, second: bool, active: bool): (w: nat)
    requires sectors <= 0xfff
    ensures w < 0x10000
  {
    Word(Head(second, active, false, false, sectors))
  }

  function RegionHeader(sectors: nat, second: bool, active: bool): (r: seq<Byte>)
    requires sectors <= 0xfff
    ensures |r| == REGION_HEADER_SIZE
  {
    var w := RegionWord(sectors, second, active);
    [0x45, 0x4f, 0x52, 0x70, w % 0x100, w / 0x100, 0, 0]
  }

  /**
   * A region header on flash: the magic number 0x70524f45, a 16-bit word with the second and the
   * active flag as bits 15 and 14 and the size in sectors below them, and two bytes of zero; the
   * first two little-endian.
   */
  lemma {:induction false} RegionFormat(sectors: nat, second: bool, active: bool)
    requires sectors <= 0xfff
    ensures var r := RegionHeader(sectors, second, active);
            var word: nat := r[4] as nat + 0x100 * (r[5] as nat);
            && r[0] as nat + 0x100 * (r[1] as nat) + 0x1_0000 * (r[2] as nat) + 0x100_0000 * (r[3] as nat) == 0x70524f45
            && (HasBit(word, 15) <==> second) && (HasBit(word, 14) <==> active) && word % 0x1000 == sectors
            && r[6..] == [0, 0]
  {
    var w := RegionWord(sectors, second, active);
    HeadOfWord(Head(second, active, false, false, sectors));
    WordWeights(w);
  }

  predicate HasMagic(mem: seq<Byte>, addr: nat) {
    addr + REGION_HEADER_SIZE <= |mem|
    && mem[addr] == 0x45 && mem[addr + 1] == 0x4f && mem[addr + 2] == 0x52 && mem[addr + 3] == 0x70
  }

  predicate HasHeader(mem: seq<Byte>, addr: nat, sectors: nat, second: bool, active: bool) {
    sectors <= 0xfff && addr + REGION_HEADER_SIZE <= |mem|
    && mem[addr..addr + REGION_HEADER_SIZE] == RegionHeader(sectors, second, active)
  }

  /** The second flag, active flag and size stored in the header at addr. */
  function FlagsAt(mem: seq<Byte>, addr: nat): Head
    requires addr + REGION_HEADER_SIZE <= |mem|
  {
    HeadOf(WordAt(mem, addr + 4, |mem|))
  }

  lemma {:induction false} ReadRegionHeader(mem: seq<Byte>, addr: nat, sectors: nat, second: bool, active: bool)
    requires HasHeader(mem, addr, sectors, second, active)
    ensures HasMagic(mem, addr)
    ensures FlagsAt(mem, addr) == Head(second, active, false, false, sectors)
  {
    var r := RegionHeader(sectors, second, active);
    assert forall k :: 0 <= k < REGION_HEADER_SIZE ==> mem[addr + k] == mem[addr..addr + REGION_HEADER_SIZE][k] == r[k];
    HeadOfWord(Head(second, active, false, false, sectors));
  }

  /** Programming the stale header over the active one stores the stale one. */
  lemma {:induction false} StaleTakes(sectors: nat, second: bool)
    requires sectors <= 0xfff
    ensures Blend(RegionHeader(sectors, second, true), RegionHeader(sectors, second, false))
            == RegionHeader(sectors, second, false)
  {
    var from, to := RegionHeader(sectors, second, true), RegionHeader(sectors, second, false);
    HighByteClear(Head(second, true, false, false, sectors), Head(second, false, false, false, sectors));
    forall k | 0 <= k < REGION_HEADER_SIZE
      ensures And(from[k], to[k]) == to[k]
    {
      if k != 5 {
        assert from[k] == to[k];
        AndSelf(from[k]);
      }
    }
    assert Blend(from, to) == to;
  }

  // ------------------------------------------------------------------ parsing

  /** The log that the bytes from addr on hold. */
  function Parse(mem: seq<Byte>, addr: nat, end: nat): seq<Entry>
    requires end <= |mem|
    decreases end - addr
  {
    var len := WordAt(mem, addr + 2, end);
    if addr >= end || WordAt(mem, addr, end) == 0xffff || addr + ENTRY_HEADER_SIZE + len > end then []
    else
      [Entry(HeadOf(WordAt(mem, addr, end)), mem[addr + ENTRY_HEADER_SIZE..addr + ENTRY_HEADER_SIZE + len])]
      + Parse(mem, addr + ENTRY_HEADER_SIZE + len, end)
  }

  /** Parsing undoes encoding: a region that holds a log parses to that log. */
  lemma {:induction false} ParseShape(mem: seq<Byte>, base: nat, end: nat, log: seq<Entry>, n: nat)
    requires Shape(mem, base, end, log) && n <= |log|
    ensures Parse(mem, AddrOf(base, log, n), end) == log[n..]
    decreases |log| - n
  {
    if n == |log| {
      assert log[..n] == log;
    } else {
      ReadHeader(mem, base, end, log, n);
      DecodeHeader(mem, base, end, log, n);
      EntryBounds(log, n);
      ParseShape(mem, base, end, log, n + 1);
      assert log[n..] == [log[n]] + log[n + 1..];
    }
  }

  /** The log that the region [base, end) holds. */
  function RegionLog(mem: seq<Byte>, base: nat, end: nat): seq<Entry>
    requires end <= |mem|
  {
    Parse(mem, base + REGION_HEADER_SIZE, end)
  }

  lemma {:induction false} ParseLog(mem: seq<Byte>, base: nat, end: nat, log: seq<Entry>)
    requires Shape(mem, base, end, log)
    ensures RegionLog(mem, base, end) == log
  {
    ParseShape(mem, base, end, log, 0);
    assert log[..0] == [] && log[0..] == log;
  }

  // ------------------------------------------------------------------ booting

  /** The region a boot makes current: the first one if it is marked active. */
  function BootBase(mem: seq<Byte>, a: Area): nat {
    if HasMagic(mem, a.lo) && FlagsAt(mem, a.lo).invalid then a.lo else a.Hi()
  }

  function BootLog(mem: seq<Byte>, a: Area): seq<Entry>
    requires AreaOk(a, |mem|)
  {
    RegionLog(mem, BootBase(mem, a), BootBase(mem, a) + a.RegionSize())
  }

  /** The parameters that a boot from these bytes shows. */
  function BootView(mem: seq<Byte>, a: Area): map<Data, Value>
    requires AreaOk(a, |mem|)
  {
    View(Table(BootLog(mem, a)))
  }

  /** No sector inside the first region starts like a region header. */
  predicate Clean(mem: seq<Byte>, a: Area) {
    forall s :: 1 <= s < a.sectors ==> !HasMagic(mem, a.lo + s * SECTOR_SIZE)
  }

  /**
   * `cur` is the active region.  The other one may be unmarked (being rewritten),
   * stale, or, if it is the second, still marked active.
   */
  ghost predicate PairOk(mem: seq<Byte>, a: Area, cur: nat) {
    && a.IsBase(cur)
    && HasHeader(mem, cur, a.sectors, cur == a.Hi(), true)
    && (HasMagic(mem, a.Other(cur)) ==>
          || HasHeader(mem, a.Other(cur), a.sectors, cur == a.lo, false)
          || (cur == a.lo && HasHeader(mem, a.Hi(), a.sectors, true, true)))
  }

  /** The bytes hold the given log in the region a boot would choose. */
  ghost predicate Sound(mem: seq<Byte>, a: Area, cur: nat, log: seq<Entry>) {
    && AreaOk(a, |mem|) && PairOk(mem, a, cur)
    && Shape(mem, cur, cur + a.RegionSize(), log) && WellFormed(log)
  }

  /** A boot picks the active region of a sound pair and reads its log. */
  lemma {:induction false} SoundBoots(mem: seq<Byte>, a: Area, cur: nat, log: seq<Entry>)
    requires Sound(mem, a, cur, log)
    ensures BootBase(mem, a) == cur && BootLog(mem, a) == log && BootView(mem, a) == View(Table(log))
  {
    hide Shape, PairOk, WellFormed, Parse, Table, View, RegionLog;
    PairBoots(mem, a, cur);
    ParseLog(mem, cur, cur + a.RegionSize(), log);
  }

  lemma {:induction false} PairBoots(mem: seq<Byte>, a: Area, cur: nat)
    requires AreaOk(a, |mem|) && PairOk(mem, a, cur)
    ensures BootBase(mem, a) == cur
  {
    ReadRegionHeader(mem, cur, a.sectors, cur == a.Hi(), true);
    if cur == a.Hi() && HasMagic(mem, a.lo) {
      ReadRegionHeader(mem, a.lo, a.sectors, false, false);
    }
  }

  /** What a log comes to: its parameters, and whether it is settled. */
  datatype Face = Face(m: map<Data, Value>, tidy: bool)

  ghost function FaceOf(log: seq<Entry>): Face {
    Face(View(Table(log)), Settled(log))
  }

  /** A boot from these bytes shows exactly `f`, once its scan has come to the area. */
  ghost predicate Shows(mem: seq<Byte>, a: Area, f: Face) {
    AreaOk(a, |mem|) && Sound(mem, a, BootBase(mem, a), BootLog(mem, a)) && FaceOf(BootLog(mem, a)) == f
  }

  /** The parameters alone. */
  ghost predicate ShowsMap(mem: seq<Byte>, a: Area, m: map<Data, Value>) {
    Shows(mem, a, Face(m, true)) || Shows(mem, a, Face(m, false))
  }

  lemma {:induction false} SoundShows(mem: seq<Byte>, a: Area, cur: nat, log: seq<Entry>)
    requires Sound(mem, a, cur, log)
    ensures Shows(mem, a, FaceOf(log))
  {
    hide FaceOf;
    SoundBoots(mem, a, cur, log);
  }

  // ---------------------------------------------------------- how steps look

  lemma {:induction false} HeaderSame(a: seq<Byte>, b: seq<Byte>, addr: nat, sectors: nat, second: bool, active: bool)
    requires HasHeader(a, addr, sectors, second, active) && SameInside(a, b, addr, addr + REGION_HEADER_SIZE)
    ensures HasHeader(b, addr, sectors, second, active)
  {
    SameSlice(a, b, addr, addr + REGION_HEADER_SIZE);
  }

  /** Whatever happens to the other region while it is unmarked, the current one still boots. */
  lemma {:induction false} UnmarkedOther(mem: seq<Byte>, h: seq<Byte>, a: Area, cur: nat, log: seq<Entry>)
    requires Sound(mem, a, cur, log)
    requires SameOutside(h, mem, a.Other(cur), a.Other(cur) + a.RegionSize())
    requires !HasMagic(h, a.Other(cur))
    ensures Sound(h, a, cur, log)
  {
    HeaderSame(mem, h, cur, a.sectors, cur == a.Hi(), true);
    ShapeSame(mem, h, cur, cur + a.RegionSize(), log);
  }

  /** Writing inside the current region, past its header, keeps both headers. */
  lemma {:induction false} InsideCurrent(mem: seq<Byte>, h: seq<Byte>, a: Area, cur: nat, log: seq<Entry>,
                                         log': seq<Entry>)
    requires Sound(mem, a, cur, log)
    requires SameOutside(h, mem, cur + REGION_HEADER_SIZE, cur + a.RegionSize())
    requires Shape(h, cur, cur + a.RegionSize(), log') && WellFormed(log')
    ensures Sound(h, a, cur, log')
  {
    var other := a.Other(cur);
    HeaderSame(mem, h, cur, a.sectors, cur == a.Hi(), true);
    if HasMagic(h, other) {
      assert SameInside(mem, h, other, other + REGION_HEADER_SIZE);
      assert HasMagic(mem, other);
      if HasHeader(mem, other, a.sectors, cur == a.lo, false) {
        HeaderSame(mem, h, other, a.sectors, cur == a.lo, false);
      } else {
        HeaderSame(mem, h, other, a.sectors, true, true);
      }
    }
  }

  /** With both regions marked active the first one is chosen; the map is that of one of the two logs. */
  lemma {:induction false} BothActive(mem: seq<Byte>, a: Area, cur: nat, log: seq<Entry>, new': nat, log': seq<Entry>)
    requires AreaOk(a, |mem|) && a.IsBase(cur) && new' == a.Other(cur)
    requires HasHeader(mem, a.lo, a.sectors, false, true) && HasHeader(mem, a.Hi(), a.sectors, true, true)
    requires Shape(mem, cur, cur + a.RegionSize(), log) && WellFormed(log)
    requires Shape(mem, new', new' + a.RegionSize(), log') && WellFormed(log')
    ensures Sound(mem, a, a.lo, if cur == a.lo then log else log')
  {
  }

  /** Once the old region is marked stale the new one is current. */
  lemma {:induction false} Switched(mem: seq<Byte>, a: Area, cur: nat, new': nat, log': seq<Entry>)
    requires AreaOk(a, |mem|) && a.IsBase(cur) && new' == a.Other(cur)
    requires HasHeader(mem, new', a.sectors, new' == a.Hi(), true)
    requires HasHeader(mem, cur, a.sectors, cur == a.Hi(), false)
    requires Shape(mem, new', new' + a.RegionSize(), log') && WellFormed(log')
    ensures Sound(mem, a, new', log')
  {
  }

  // ------------------------------------------------------ finding the area again

  datatype Probe = Probe(status: Status, addr: nat)

  /** The first sector from addr on, below top, that starts like a region. */
  function ScanMagic(mem: seq<Byte>, addr: nat, top: nat): (p: Probe)
    ensures p.status == Ok ==> HasMagic(mem, p.addr)
    decreases top - addr
  {
    if addr >= top then Probe(NotFound, addr)
    else if addr + REGION_HEADER_SIZE > |mem| then Probe(ErrIo, addr)
    else if HasMagic(mem, addr) then Probe(Ok, addr)
    else ScanMagic(mem, addr + SECTOR_SIZE, top)
  }

  /**
   * The scan finds the first sector that starts like a region; it finds none if and only if no
   * sector does, and leaves the chip if and only if none does before the end of the chip.
   */
  lemma {:induction false} ScanExact(mem: seq<Byte>, addr: nat, top: nat)
    requires addr % SECTOR_SIZE == 0
    ensures var p := ScanMagic(mem, addr, top);
            && addr <= p.addr && p.addr % SECTOR_SIZE == 0
            && (forall k :: addr <= k < p.addr && k % SECTOR_SIZE == 0 ==>
                  k < top && k + REGION_HEADER_SIZE <= |mem| && !HasMagic(mem, k))
            && (p.status == Ok <==> p.addr < top && p.addr + REGION_HEADER_SIZE <= |mem|)
            && (p.status == NotFound <==> p.addr >= top)
            && (p.status == ErrIo <==> p.addr < top && p.addr + REGION_HEADER_SIZE > |mem|)
    decreases top - addr
  {
    hide HasMagic;
    if addr < top && addr + REGION_HEADER_SIZE <= |mem| && !HasMagic(mem, addr) {
      ScanExact(mem, addr + SECTOR_SIZE, top);
    }
  }

  lemma {:induction false} ScanAligned(mem: seq<Byte>, addr: nat, top: nat)
    requires addr % SECTOR_SIZE == 0
    ensures ScanMagic(mem, addr, top).addr % SECTOR_SIZE == 0
    decreases top - addr
  {
    if addr < top && addr + REGION_HEADER_SIZE <= |mem| && !HasMagic(mem, addr) {
      ScanAligned(mem, addr + SECTOR_SIZE, top);
    }
  }

  /** Where the header at addr says that its partner is. */
  function Partner(mem: seq<Byte>, addr: nat): int
    requires addr + REGION_HEADER_SIZE <= |mem|
  {
    var f := FlagsAt(mem, addr);
    if f.alive then addr - f.id * SECTOR_SIZE else addr + f.id * SECTOR_SIZE
  }

  /** What sysparam_init makes of the header at addr and its partner. */
  function Diagnose(mem: seq<Byte>, addr: nat): Status
    requires addr + REGION_HEADER_SIZE <= |mem|
  {
    var f, other := FlagsAt(mem, addr), Partner(mem, addr);
    if other < 0 || other + REGION_HEADER_SIZE > |mem| then ErrIo
    else if HasMagic(mem, other) && FlagsAt(mem, other).alive == f.alive then ErrCorrupt
    else if !HasMagic(mem, other) && !f.invalid then ErrCorrupt
    else if (if f.alive then addr else other) + f.id * SECTOR_SIZE > |mem| then ErrIo
    else Ok
  }

  function ScanStart(base: nat): nat {
    base - base % SECTOR_SIZE
  }

  function ScanTop(base: nat, top: nat): nat {
    if top == 0 || top == ScanStart(base) then ScanStart(base) + SECTOR_SIZE else top
  }

  /** The status of sysparam_init on these bytes. */
  function InitStatus(mem: seq<Byte>, base: nat, top: nat): Status {
    var p := ScanMagic(mem, ScanStart(base), ScanTop(base, top));
    if p.status == Ok then Diagnose(mem, p.addr) else p.status
  }

  /**
   * Sector k is one that sysparam_init looks at: the one base is in and, if a top beyond it
   * is given, those below that.
   */
  predicate Scans(base: nat, top: nat, k: nat) {
    && k % SECTOR_SIZE == 0 && base < k + SECTOR_SIZE
    && if top == 0 || (top % SECTOR_SIZE == 0 && top <= base < top + SECTOR_SIZE) then k <= base else k < top
  }

  lemma {:induction false} ScanRange(base: nat, top: nat, k: nat)
    requires k % SECTOR_SIZE == 0
    ensures Scans(base, top, k) <==> ScanStart(base) <= k < ScanTop(base, top)
  {
  }

  /**
   * Nothing is found if and only if none of the sectors looked at, all of which are on the
   * chip, starts like a region.
   */
  lemma {:induction false} NotFoundExact(mem: seq<Byte>, base: nat, top: nat)
    ensures InitStatus(mem, base, top) == NotFound <==>
              forall k: nat :: Scans(base, top, k) ==> k + REGION_HEADER_SIZE <= |mem| && !HasMagic(mem, k)
  {
    hide HasMagic, ScanMagic, Scans, Diagnose;
    var s, e := ScanStart(base), ScanTop(base, top);
    var p := ScanMagic(mem, s, e);
    ScanExact(mem, s, e);
    forall k: nat | k % SECTOR_SIZE == 0
      ensures Scans(base, top, k) <==> s <= k < e
    {
      ScanRange(base, top, k);
    }
    ScansAligned(base, top);
    if p.status == Ok {
      NeverNotFound(mem, p.addr);
      assert Scans(base, top, p.addr) && HasMagic(mem, p.addr);
    } else if p.status == ErrIo {
      assert Scans(base, top, p.addr) && p.addr + REGION_HEADER_SIZE > |mem|;
    } else {
      assert p.status == NotFound;
    }
  }

  lemma {:induction false} ScansAligned(base: nat, top: nat)
    ensures forall k: nat :: Scans(base, top, k) ==> k % SECTOR_SIZE == 0
    ensures ScanStart(base) % SECTOR_SIZE == 0
  {
  }

  lemma {:induction false} NeverNotFound(mem: seq<Byte>, addr: nat)
    requires addr + REGION_HEADER_SIZE <= |mem|
    ensures Diagnose(mem, addr) != NotFound
  {
  }

  /** The area that the header at addr belongs to. */
  function AreaAt(mem: seq<Byte>, addr: nat): Area
    requires addr + REGION_HEADER_SIZE <= |mem| && Partner(mem, addr) >= 0
  {
    var f, other := FlagsAt(mem, addr), Partner(mem, addr);
    Area(if f.alive then other else addr, f.id)
  }

  lemma {:induction false} PairedArea(mem: seq<Byte>, addr: nat)
    requires addr % SECTOR_SIZE == 0 && HasMagic(mem, addr) && Diagnose(mem, addr) == Ok
    ensures Partner(mem, addr) >= 0
    ensures var a := AreaAt(mem, addr);
            && AreaFits(a, |mem|) && a.IsBase(addr) && a.Other(addr) == Partner(mem, addr)
            && a.sectors == FlagsAt(mem, addr).id
  {
    hide FlagsAt, HasMagic;
    FlagsSize(mem, addr);
    OwnPartner(mem, addr);
  }

  /** A header of size zero would be its own partner. */
  lemma {:induction false} OwnPartner(mem: seq<Byte>, addr: nat)
    requires HasMagic(mem, addr)
    ensures FlagsAt(mem, addr).id == 0 ==> Diagnose(mem, addr) == ErrCorrupt
  {
  }

  lemma {:induction false} FlagsSize(mem: seq<Byte>, addr: nat)
    requires addr + REGION_HEADER_SIZE <= |mem|
    ensures FlagsAt(mem, addr).id <= 0xfff
  {
  }

  /** The bytes hold a sound area that a scan from `base` to `top` comes across first. */
  ghost predicate Bootable(mem: seq<Byte>, a: Area, base: nat, top: nat) {
    && AreaOk(a, |mem|) && (HasMagic(mem, a.lo) || Clean(mem, a)) && Sound(mem, a, BootBase(mem, a), BootLog(mem, a))
    && (exists k: nat :: Ahead(mem, a, base, k))
    && ScanTop(base, top) > if HasMagic(mem, a.lo) then a.lo else a.Hi()
  }

  /** The area starts k sectors after the start of the scan, and none of those looks like a region. */
  ghost predicate Ahead(mem: seq<Byte>, a: Area, base: nat, k: nat) {
    && a.lo == ScanStart(base) + k * SECTOR_SIZE
    && forall j :: 0 <= j < k ==> !HasMagic(mem, ScanStart(base) + j * SECTOR_SIZE)
  }

  lemma {:induction false} ScanFinds(mem: seq<Byte>, start: nat, top: nat, k: nat)
    requires forall j :: 0 <= j < k ==> !HasMagic(mem, start + j * SECTOR_SIZE)
    requires start + k * SECTOR_SIZE < top && start + k * SECTOR_SIZE + REGION_HEADER_SIZE <= |mem|
    ensures ScanMagic(mem, start, top) == ScanMagic(mem, start + k * SECTOR_SIZE, top)
    decreases k
  {
    if k > 0 {
      assert !HasMagic(mem, start + 0 * SECTOR_SIZE);
      forall j | 0 <= j < k - 1
        ensures !HasMagic(mem, (start + SECTOR_SIZE) + j * SECTOR_SIZE)
      {
        assert !HasMagic(mem, start + (j + 1) * SECTOR_SIZE);
      }
      ScanFinds(mem, start + SECTOR_SIZE, top, k - 1);
    }
  }

  /** The scan comes to the first region of the area that has a header. */
  lemma {:induction false} ScanArea(mem: seq<Byte>, a: Area, base: nat, top: nat)
    requires Bootable(mem, a, base, top)
    ensures ScanMagic(mem, ScanStart(base), ScanTop(base, top))
            == Probe(Ok, if HasMagic(mem, a.lo) then a.lo else a.Hi())
  {
    hide Shape, PairOk, WellFormed, BootBase, BootLog, HasMagic;
    var k: nat :| Ahead(mem, a, base, k);
    ScanFinds(mem, ScanStart(base), ScanTop(base, top), k);
    if !HasMagic(mem, a.lo) {
      forall j | 0 <= j < a.sectors
        ensures !HasMagic(mem, a.lo + j * SECTOR_SIZE)
      {
        assert j == 0 ==> a.lo + j * SECTOR_SIZE == a.lo;
      }
      ScanFinds(mem, a.lo, ScanTop(base, top), a.sectors);
      OnlySecond(mem, a);
    }
  }

  lemma {:induction false} OnlySecond(mem: seq<Byte>, a: Area)
    requires AreaOk(a, |mem|) && PairOk(mem, a, BootBase(mem, a)) && !HasMagic(mem, a.lo)
    ensures HasMagic(mem, a.Hi()) && BootBase(mem, a) == a.Hi()
  {
    ReadRegionHeader(mem, a.Hi(), a.sectors, true, true);
  }

  /** Both headers of a sound area tell the truth about it. */
  lemma {:induction false} PairDiagnosed(mem: seq<Byte>, a: Area, addr: nat)
    requires AreaOk(a, |mem|) && PairOk(mem, a, BootBase(mem, a)) && addr == if HasMagic(mem, a.lo) then a.lo
             else a.Hi()
    ensures HasMagic(mem, addr) && Partner(mem, addr) == a.Other(addr) && AreaAt(mem, addr) == a
    ensures Diagnose(mem, addr) == Ok
    ensures BootBase(mem, a) == if FlagsAt(mem, addr).invalid then addr else a.Other(addr)
    ensures !HasMagic(mem, a.Other(addr)) ==> BootBase(mem, a) == addr
  {
    var cur, other := BootBase(mem, a), a.Other(addr);
    hide FlagsAt, HasHeader;
    HeaderTells(mem, a, cur);
    HeaderTells(mem, a, a.Other(cur));
  }

  lemma {:induction false} HeaderTells(mem: seq<Byte>, a: Area, addr: nat)
    requires AreaOk(a, |mem|) && a.IsBase(BootBase(mem, a)) && PairOk(mem, a, BootBase(mem, a)) && a.IsBase(addr)
    ensures addr == BootBase(mem, a) ==> HasMagic(mem, addr) && FlagsAt(mem, addr).invalid
    ensures HasMagic(mem, addr) ==> FlagsAt(mem, addr).alive == (addr == a.Hi()) && FlagsAt(mem, addr).id == a.sectors
    ensures HasMagic(mem, addr) && addr != BootBase(mem, a) && addr == a.lo ==> !FlagsAt(mem, addr).invalid
  {
    var cur := BootBase(mem, a);
    if addr == cur {
      ReadRegionHeader(mem, addr, a.sectors, addr == a.Hi(), true);
    } else if HasMagic(mem, addr) {
      if HasHeader(mem, addr, a.sectors, cur == a.lo, false) {
        ReadRegionHeader(mem, addr, a.sectors, cur == a.lo, false);
      } else {
        ReadRegionHeader(mem, addr, a.sectors, true, true);
      }
    }
  }

  /** Marking a formatted region stale completes the pair. */
  lemma {:induction false} MarkedStale(m1: seq<Byte>, m2: seq<Byte>, a: Area, cur: nat, log: seq<Entry>)
    requires Sound(m1, a, cur, log) && HasHeader(m2, a.Other(cur), a.sectors, a.Other(cur) == a.Hi(), false)
    requires SameOutside(m2, m1, a.Other(cur), a.Other(cur) + REGION_HEADER_SIZE)
    ensures Sound(m2, a, cur, log)
  {
    HeaderSame(m1, m2, cur, a.sectors, cur == a.Hi(), true);
    ShapeSame(m1, m2, cur, cur + a.RegionSize(), log);
  }
}
