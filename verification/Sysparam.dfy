/**
 * The sysparam store of core/sysparam.c over the flash chip.
 *
 * The state is the chip and the few words of RAM that sysparam_init sets up.
 * `log` is the log that the current region holds and `area` the pair of regions;
 * both are determined by the bytes and exist for proofs only.
 */
module Sysparam {
  import opened Bytes
  import opened Flash
  import opened SysparamLog
  import opened SysparamTable
  import opened SysparamPack
  import opened SysparamRegion
  import opened SysparamBoot
  import opened SysparamFlash
  import opened SysparamSteps
  import opened SysparamPlan

  /** Bytes read at a time when looking for an empty area. */
  const SCAN_BUFFER_SIZE: nat := 32

  /** Keys are C strings whose length is kept in 16 bits. */
  function Cut(key: Data): Data {
    key[..|key| % 0x10000]
  }

  /** A key is taken as it is exactly if its length fits; a longer one loses a multiple of 65536 bytes at its end. */
  lemma {:induction false} CutExact(key: Data)
    ensures Cut(key) == key <==> |key| <= MAX_LEN
    ensures forall k :: k == Cut(key) <==> k <= key && |k| <= MAX_LEN && (|key| - |k|) % 0x1_0000 == 0
  {
    forall k | k <= key && |k| <= MAX_LEN && (|key| - |k|) % 0x1_0000 == 0
      ensures k == Cut(key)
    {
      assert |k| == |key| % 0x1_0000;
      assert k == key[..|k|];
    }
  }

  /** The context has counted the whole log. */
  ghost predicate CountedAll(ctx: Context, log: seq<Entry>) {
    && ctx.unusedKeys == Sum(Table(log), RowNet) - Orphans(log)
    && ctx.compactable == DeadSize(log)
    && ctx.maxKeyId == |Table(log)|
  }

  lemma {:induction false} TallyAll(base: nat, log: seq<Entry>)
    requires WellFormed(log)
    ensures CountedAll(Tally(base, log, Start(base), 0, |log|), log)
  {
    Counted(base, log, |log|);
    assert log[..|log|] == log;
  }

  /** A scan for the end mark passes every entry. */
  lemma {:induction false} NoEndId(log: seq<Entry>, n: nat)
    requires LogOk(log) && n <= |log|
    ensures First(log, n, ID_END, false) == |log|
  {
    forall k | n <= k < |log|
      ensures !Matches(log[k].head, ID_END, false)
    {
      assert EntryOk(log[k]);
    }
  }

  /** Scanning on from the end of the log: only the room left decides what happens. */
  lemma {:induction false} FindFromEnd(mem: seq<Byte>, base: nat, end: nat, log: seq<Entry>, ctx: Context)
    requires Shape(mem, base, end, log) && ctx.addr == EndOf(base, log) && ctx.len == 0
    ensures var r := Find(mem, base, end, ctx, ID_END, false);
            && r.status == Ok && r.truncated == (EndOf(base, log) + ENTRY_HEADER_SIZE > end)
            && r.ctx.unusedKeys == ctx.unusedKeys && r.ctx.compactable == ctx.compactable
            && r.ctx.maxKeyId == ctx.maxKeyId
  {
  }

  /** The cursor stands on entry i after a scan from the start of the region. */
  ghost predicate Scanned(ctx: Context, base: nat, log: seq<Entry>, i: int) {
    -1 <= i < |log| && ctx == Tally(base, log, Start(base), 0, i + 1) && On(ctx, base, log, i)
  }

  /** The cursor stands behind the last entry after a scan from the start of the region. */
  ghost predicate ScannedAll(ctx: Context, base: nat, log: seq<Entry>) {
    ctx.addr == EndOf(base, log) && ctx.len == 0 && CountedAll(ctx, log)
  }

  /** The outcome of a search whose first match is entry j of the log (|log|: none). */
  ghost predicate Seeks(status: Status, ctx: Context, base: nat, log: seq<Entry>, j: nat) {
    && j <= |log|
    && (j < |log| ==> status == Ok && Scanned(ctx, base, log, j))
    && (j == |log| ==> status == NotFound && ScannedAll(ctx, base, log))
  }

  /** Searching the bytes of a well-formed log from a cursor that has counted everything before it. */
  lemma {:induction false} SearchLog(mem: seq<Byte>, base: nat, end: nat, log: seq<Entry>, ctx: Context, i: int,
                                     id: nat, findValue: bool)
    requires Shape(mem, base, end, log) && WellFormed(log) && Scanned(ctx, base, log, i) && id != ID_END
    ensures base + REGION_HEADER_SIZE <= end <= |mem| && base <= ctx.addr <= end
    ensures var r := Find(mem, base, end, ctx, id, findValue);
            !r.truncated && Seeks(r.status, r.ctx, base, log, First(log, i + 1, id, findValue))
  {
    hide Shape, WellFormed, Find, First, Tally, On, Size, Sum, RowNet, DeadSize, Orphans, Table;
    ShapeEnds(mem, base, end, log);
    FindInLog(mem, base, end, log, ctx, i, id, findValue);
    var j := First(log, i + 1, id, findValue);
    TallyJoin(base, log, Start(base), 0, i + 1, if j < |log| then j + 1 else j);
    TallyAll(base, log);
  }

  class Store {
    const chip: Chip
    var curBase: nat
    var altBase: nat
    var endAddr: nat
    var regionSize: nat
    var forceCompact: bool
    ghost var area: Area
    ghost var log: seq<Entry>

    ghost predicate Valid()
      reads this, chip
    {
      && chip.Valid()
      && Sound(chip.mem, area, curBase, log)
      && altBase == area.Other(curBase)
      && regionSize == area.RegionSize()
      && endAddr == EndOf(curBase, log)
    }

    /** The parameters in the store. */
    ghost function Params(): map<Data, Value>
      reads this
    {
      View(Table(log))
    }

    /** _sysparam_info starts out zeroed: nothing works before Init. */
    constructor (chip: Chip)
      ensures this.chip == chip && curBase == 0 && altBase == 0
    {
      this.chip := chip;
      curBase, altBase, endAddr, regionSize, forceCompact := 0, 0, 0, 0, false;
    }

    // ---------------------------------------------------------------- scanning

    /** Reads an entry header; bytes past the region end read as erased. */
    method ReadHeaderWords(addr: nat) returns (word: nat, len: nat)
      requires addr <= curBase + regionSize <= |chip.mem|
      ensures word == WordAt(chip.mem, addr, curBase + regionSize)
      ensures len == WordAt(chip.mem, addr + 2, curBase + regionSize)
    {
      var end := curBase + regionSize;
      var n := Min(ENTRY_HEADER_SIZE, end - addr);
      var ok, bytes := chip.Read(addr, n);
      var b := bytes + Blank(ENTRY_HEADER_SIZE - n);
      assert forall k :: 0 <= k < ENTRY_HEADER_SIZE ==> b[k] == ByteAt(chip.mem, addr + k, end);
      word := b[0] as nat + 0x100 * (b[1] as nat);
      len := b[2] as nat + 0x100 * (b[3] as nat);
    }

    /** One round of the loop of _find_entry. */
    method Advance(ctx: Context, id: nat, findValue: bool) returns (step: Step)
      requires REGION_HEADER_SIZE <= regionSize && curBase + regionSize <= |chip.mem|
      requires curBase <= ctx.addr <= curBase + regionSize
      ensures step == FindOnce(chip.mem, curBase, curBase + regionSize, ctx, id, findValue)
    {
      hide Note, HeadOf, WordAt, Matches;
      var end := curBase + regionSize;
      var addr := ctx.addr;
      if addr == curBase {
        addr := addr + REGION_HEADER_SIZE;
      } else {
        addr := addr + ENTRY_HEADER_SIZE + ctx.len;
        if addr > end {
          return Halt(Stop(ctx, id, true));
        }
        if addr == end {
          return Halt(Stop(ctx.(addr := addr), id, false));
        }
      }
      var word, len := ReadHeaderWords(addr);
      var next := ctx.(addr := addr, head := HeadOf(word), len := len);
      if word == 0xffff {
        return Halt(Stop(next, id, false));
      }
      if Matches(next.head, id, findValue) {
        return Halt(Found(Ok, Note(next), false));
      }
      return Go(Note(next));
    }

    /** The loop of _find_entry. */
    method Search(ctx: Context, id: nat, findValue: bool) returns (r: Found)
      requires REGION_HEADER_SIZE <= regionSize && curBase + regionSize <= |chip.mem|
      requires curBase <= ctx.addr <= curBase + regionSize
      ensures r == Find(chip.mem, curBase, curBase + regionSize, ctx, id, findValue)
    {
      hide *;
      var found := ctx;
      var step := Advance(found, id, findValue);
      ghost var mem, base, end := chip.mem, curBase, curBase + regionSize;
      ghost var goal := LeadsFrom(mem, base, end, ctx, id, findValue);
      LeadsOn(mem, base, end, found, id, findValue, step, goal);
      while step.Go?
        invariant Leads(mem, base, end, found, id, findValue, step, goal)
        invariant step.Go? ==> base <= found.addr < step.ctx.addr <= end
        decreases end - found.addr
      {
        LeadsOn(mem, base, end, found, id, findValue, step, goal);
        found := step.ctx;
        step := Advance(found, id, findValue);
        LeadsOn(mem, base, end, found, id, findValue, step, goal);
      }
      LeadsOn(mem, base, end, found, id, findValue, step, goal);
      return step.found;
    }

    /** _find_entry: an entry too long for the region ends the scan and asks for a compaction. */
    method FindEntry(ctx: Context, id: nat, findValue: bool) returns (status: Status, found: Context)
      requires REGION_HEADER_SIZE <= regionSize && curBase + regionSize <= |chip.mem|
      requires curBase <= ctx.addr <= curBase + regionSize
      modifies this`forceCompact
      ensures var r := Find(chip.mem, curBase, curBase + regionSize, ctx, id, findValue);
              status == r.status && found == r.ctx && forceCompact == (old(forceCompact) || r.truncated)
    {
      var r := Search(ctx, id, findValue);
      if r.truncated {
        forceCompact := true;
      }
      return r.status, r.ctx;
    }

    lemma {:induction false} SeekInLog(ctx: Context, i: int, id: nat, findValue: bool)
      requires Valid() && Scanned(ctx, curBase, log, i) && id != ID_END
      ensures REGION_HEADER_SIZE <= regionSize && curBase + regionSize <= |chip.mem|
      ensures curBase <= ctx.addr <= curBase + regionSize
      ensures var r := Find(chip.mem, curBase, curBase + regionSize, ctx, id, findValue);
              !r.truncated && Seeks(r.status, r.ctx, curBase, log, First(log, i + 1, id, findValue))
    {
      hide Shape, PairOk, WellFormed, Find, Seeks, First, Scanned;
      SearchLog(chip.mem, curBase, curBase + regionSize, log, ctx, i, id, findValue);
    }

    /** _find_entry in terms of the log: the first match after entry i, or the end. */
    method Seek(ctx: Context, id: nat, findValue: bool, ghost i: int) returns (status: Status, found: Context)
      requires Valid() && Scanned(ctx, curBase, log, i) && id != ID_END
      modifies this`forceCompact
      ensures forceCompact == old(forceCompact)
      ensures Seeks(status, found, curBase, log, First(log, i + 1, id, findValue))
    {
      hide *;
      SeekInLog(ctx, i, id, findValue);
      status, found := FindEntry(ctx, id, findValue);
    }

    /** _compare_payload: compares in chunks of the bounce buffer. */
    method ComparePayload(ctx: Context, value: Data) returns (status: Status)
      requires ctx.addr + ENTRY_HEADER_SIZE + ctx.len <= |chip.mem|
      ensures var p := ctx.addr + ENTRY_HEADER_SIZE;
              status == if chip.mem[p..p + ctx.len] == value then Ok else NotFound
    {
      if ctx.len != |value| {
        return NotFound;
      }
      var p, i := ctx.addr + ENTRY_HEADER_SIZE, 0;
      assert chip.mem[p..p] == value[..0];
      while i < |value|
        invariant 0 <= i <= |value| && chip.mem[p..p + i] == value[..i]
      {
        var n := Min(|value| - i, BOUNCE_BUFFER_SIZE);
        var ok, bytes := chip.Read(p + i, n);
        ChunkCompare(chip.mem, p, value, i, n);
        if bytes != value[i..i + n] {
          return NotFound;
        }
        i := i + n;
      }
      assert value[..|value|] == value;
      return Ok;
    }

    lemma {:induction false} SeekValue(ctx: Context, j: int, key: Data)
      requires Valid() && KeyFound(Ok, ctx, curBase, log, j, key)
      ensures ctx.head.id != ID_END && Scanned(ctx, curBase, log, j)
      ensures forall s, c, v :: v == First(log, j + 1, ctx.head.id, true) && Seeks(s, c, curBase, log, v) ==>
                Located(key, s, ctx.head.id, c, curBase, log, v)
    {
      KeyThenValue(log, j, key);
    }

    /** _find_key for a given key, then _find_value with its id. */
    method Locate(key: Data) returns (status: Status, keyId: int, ctx: Context, ghost v: nat)
      requires Valid()
      modifies this`forceCompact
      ensures forceCompact == old(forceCompact)
      ensures Located(key, status, keyId, ctx, curBase, log, v)
    {
      ghost var j;
      status, ctx, j := FindKey(key);
      if status != Ok {
        return status, -1, ctx, |log|;
      }
      keyId := ctx.head.id;
      hide Valid, KeyFound, Located, First, Seeks, Scanned;
      SeekValue(ctx, j, key);
      v := First(log, j + 1, keyId, true);
      status, ctx := Seek(ctx, keyId, true, j);
    }

    lemma {:induction false} NextKey(ctx: Context, j: int, key: Data)
      requires Valid() && Scanned(ctx, curBase, log, j) && NoKeyYet(log, j + 1, key)
      ensures var k := First(log, j + 1, ID_ANY, false);
              && (k == |log| ==> !HasKey(Table(log), key))
              && (k < |log| ==>
                    && IsLiveKey(log[k].head)
                    && AddrOf(curBase, log, k) + ENTRY_HEADER_SIZE + |log[k].data| <= |chip.mem|
                    && PayloadIs(chip.mem, AddrOf(curBase, log, k), log[k].data)
                    && (log[k].data != key ==> NoKeyYet(log, k + 1, key)))
    {
      hide Table, First, WellFormed, NoKeyYet, HasKey, PairOk, Shape, Size, Tally, On;
      var k := First(log, j + 1, ID_ANY, false);
      NextKeyIs(log, j + 1, key);
      if k < |log| {
        DecodeHeader(chip.mem, curBase, curBase + regionSize, log, k);
      }
    }

    /** _find_key: goes from key to key until the payload matches. */
    method FindKey(key: Data) returns (status: Status, ctx: Context, ghost j: int)
      requires Valid()
      modifies this`forceCompact
      ensures forceCompact == old(forceCompact)
      ensures KeyFound(status, ctx, curBase, log, j, key)
    {
      ctx, j := Start(curBase), -1;
      AtStart(curBase, log, key);
      hide *;
      while true
        invariant Valid() && forceCompact == old(forceCompact)
        invariant Scanned(ctx, curBase, log, j) && NoKeyYet(log, j + 1, key)
        decreases |log| - j
      {
        var same;
        status, ctx, same, j := FindNextKey(ctx, key, j);
        if status != Ok || same {
          return;
        }
      }
    }

    /** One round of _find_key. */
    method FindNextKey(ctx0: Context, key: Data,
                       ghost i: int) returns (status: Status, ctx: Context, same: bool, ghost j: int)
      requires Valid() && Scanned(ctx0, curBase, log, i) && NoKeyYet(log, i + 1, key)
      modifies this`forceCompact
      ensures forceCompact == old(forceCompact)
      ensures status != Ok || same ==> KeyFound(status, ctx, curBase, log, j, key)
      ensures status == Ok && !same ==> i < j < |log| && Scanned(ctx, curBase, log, j) && NoKeyYet(log, j + 1, key)
    {
      hide Valid, First, Table, Shape, CountedAll, Tally, HasKey;
      NextKey(ctx0, i, key);
      j := First(log, i + 1, ID_ANY, false);
      status, ctx := Seek(ctx0, ID_ANY, false, i);
      if status != Ok {
        return status, ctx, false, j;
      }
      var s := ComparePayload(ctx, key);
      same := s == Ok;
    }

    // ------------------------------------------------------------------- reading

    lemma {:induction false} LocatedValue(key: Data, status: Status, keyId: int, ctx: Context, v: nat)
      requires Valid() && Located(key, status, keyId, ctx, curBase, log, v)
      ensures status == Ok || status == NotFound
      ensures status == Ok <==> key in Params()
      ensures status == Ok ==> PayloadIs(chip.mem, ctx.addr, Params()[key].data) && ctx.len == |Params()[key].data|
      ensures status == Ok ==> ctx.head.binary == Params()[key].binary
    {
      hide Shape, PairOk, WellFormed, Table, View, HasKey, Distinct;
      DistinctKeys(log);
      if RowOf(Table(log), key) < 0 {
        ViewOfNothing(Table(log), key);
      } else {
        ViewOfRow(Table(log), RowOf(Table(log), key));
      }
      if status == Ok {
        DecodeHeader(chip.mem, curBase, curBase + regionSize, log, v);
      }
    }

    /** sysparam_get_data: exactly the stored bytes and binary flag, or NotFound. */
    method Get(key: Data) returns (status: Status, value: Data, binary: bool)
      requires curBase != 0 ==> Valid()
      modifies this`forceCompact
      ensures forceCompact == old(forceCompact)
      ensures curBase == 0 ==> status == ErrNoInit
      ensures curBase != 0 ==>
                var k := if |key| <= MAX_LEN then key else Cut(key);
                && status == (if k in Params() then Ok else NotFound)
                && (status == Ok ==> Value(value, binary) == Params()[k])
    {
      CutExact(key);
      hide *;
      value, binary := [], false;
      if curBase == 0 {
        return ErrNoInit, value, binary;
      }
      var keyId, ctx;
      ghost var v;
      status, keyId, ctx, v := Locate(Cut(key));
      LocatedValue(Cut(key), status, keyId, ctx, v);
      if status == Ok {
        value := ReadPayload(ctx, Params()[Cut(key)].data);
        binary := ctx.head.binary;
      }
    }

    /** _read_payload, limited to the entry's length. */
    method ReadPayload(ctx: Context, ghost data: Data) returns (value: Data)
      requires PayloadIs(chip.mem, ctx.addr, data) && ctx.len == |data|
      ensures value == data
    {
      var ok, bytes := chip.Read(ctx.addr + ENTRY_HEADER_SIZE, ctx.len);
      return bytes;
    }

    // ------------------------------------------------------------------- writing

    lemma {:induction false} Parts()
      requires Valid()
      ensures chip.Valid() && Sound(chip.mem, area, curBase, log) && AreaOk(area, |chip.mem|) && area.IsBase(curBase)
      ensures Shape(chip.mem, curBase, curBase + regionSize, log) && WellFormed(log) && LogOk(log)
      ensures altBase == area.Other(curBase) && regionSize == area.RegionSize() && endAddr == EndOf(curBase, log)
    {
    }

    lemma {:induction false} Establish()
      requires chip.Valid() && Sound(chip.mem, area, curBase, log)
      requires altBase == area.Other(curBase) && regionSize == area.RegionSize() && endAddr == EndOf(curBase, log)
      ensures Valid()
    {
    }

    /** _write_entry: an entry written at the end of the log moves the end. */
    method WriteEntry(addr: nat, head: Head, payload: Data) returns (status: Status)
      requires chip.Valid() && EntryOk(Entry(head, payload)) && IsLive(head)
      requires InChip(chip.mem, addr, ENTRY_HEADER_SIZE + |payload|)
      requires ErasedFrom(chip.mem, addr, addr + ENTRY_HEADER_SIZE + |payload|)
      modifies chip, this`endAddr
      ensures chip.Valid() && status == Ok
      ensures endAddr == if old(endAddr) == addr then addr + ENTRY_HEADER_SIZE + |payload| else old(endAddr)
      ensures chip.mem == Splice(old(chip.mem), addr, Encode(Entry(head, payload)))
      ensures Trail(chip.history, old(chip.history), old(chip.mem), chip.mem, addr,
              addr + ENTRY_HEADER_SIZE + |payload|)
      ensures |chip.history| > |old(chip.history)|
      ensures WritingEntry(chip.history, |old(chip.history)|, addr, head, |payload|)
    {
      hide *;
      if endAddr == addr {
        endAddr := endAddr + ENTRY_HEADER_SIZE + |payload|;
      }
      status := PutEntry(chip, addr, head, payload);
    }

    /** Adds one live entry at the end of the log. */
    method AppendEntry(head: Head, payload: Data)
      requires Valid() && Appendable(log, curBase, curBase + regionSize, Entry(head, payload))
      modifies chip, this`endAddr, this`log
      ensures Valid() && log == old(log) + [Entry(head, payload)]
      ensures Table(log) == Apply(Table(old(log)), Entry(head, payload))
      ensures Grew(chip.history, old(chip.history)) && |old(chip.history)| < |chip.history|
      ensures AllShow(chip.history, |old(chip.history)|, |chip.history| - 1, area, FaceOf(old(log)))
      ensures AllShow(chip.history, |chip.history| - 1, |chip.history|, area, FaceOf(log))
      ensures SameOutside(chip.mem, old(chip.mem), curBase, curBase + regionSize)
    {
      hide *;
      ghost var m0, h0, e, log0 := chip.mem, chip.history, Entry(head, payload), log;
      Parts();
      FreeSpace(m0, curBase, curBase + regionSize, log, e);
      var status := WriteEntry(endAddr, head, payload);
      Appended(h0, chip.history, m0, chip.mem, area, curBase, log0, e);
      log := log + [e];
      Establish();
    }

    lemma {:induction false} OldStored(addr: nat, stale: bool, log0: seq<Entry>, v: nat, r: nat) returns (e: Entry)
      requires Valid() && OldValue(chip.mem, area, curBase, log, addr, stale, log0, v, r)
      ensures if stale then v < |log0| && e == log0[v] else v < |log| && e == log[v]
      ensures EntryOk(e) && e.head.id <= MAX_KEY_ID && |e.data| <= MAX_LEN && HeadAt(chip.mem, addr, e.head, |e.data|)
    {
      hide PairOk, WellFormed, Table, Encode, Size, HeadOf, Shape, HeadAt;
      e := if stale then log0[v] else log[v];
      if stale {
        HeadStored(chip.mem, area.Other(curBase), area.Other(curBase) + area.RegionSize(), log0, v);
      } else {
        HeadStored(chip.mem, curBase, curBase + regionSize, log, v);
      }
    }

    /** _delete_entry on the value in use, or on its copy that a compaction left in the stale region. */
    method DeleteOld(addr: nat, ghost stale: bool, ghost log0: seq<Entry>, ghost v: nat,
                     ghost r: nat) returns (status: Status)
      requires Valid() && OldValue(chip.mem, area, curBase, log, addr, stale, log0, v, r)
      modifies chip, this`log
      ensures Valid() && status == Ok
      ensures stale ==> log == old(log)
      ensures !stale ==>
              FirstValue(old(log), v, r) && Table(log) == DropFirst(Table(old(log)), r)
                  && Orphans(log) == Orphans(old(log))
      ensures Grew(chip.history, old(chip.history)) && |chip.history| == |old(chip.history)| + 1
      ensures AllShow(chip.history, |old(chip.history)|, |chip.history|, area, FaceOf(log))
    {
      hide *;
      ghost var m0, h0, log1 := chip.mem, chip.history, log;
      Parts();
      ghost var e := OldStored(addr, stale, log0, v, r);
      status := ClearAlive(chip, addr, e.head, |e.data|);
      OldDeleted(m0, chip.mem, area, curBase, log, addr, stale, log0, v, r, e);
      log := if stale then log else log[v := Killed(log[v])];
      Establish();
      OneMore(h0, chip.mem);
      ShowLast(h0, |h0|, chip.mem, area, curBase, log);
    }

    // ----------------------------------------------------------------- iterating

    lemma {:induction false} IterKey(ctx: Context, i: int, r: nat)
      requires Valid() && AtRow(ctx, curBase, log, i, r)
      ensures var j, t := First(log, i + 1, ID_ANY, false), Table(log);
              && (j == |log| <==> r == |t|) && r <= |t|
              && (j < |log| ==>
                    && log[j].head.id == r + 1 && r + 1 < ID_END && |Table(log[..j + 1])| == r + 1
                    && |log[j].data| == |t[r].key| && PayloadIs(chip.mem, AddrOf(curBase, log, j), t[r].key)
                    && ValueFound(chip.mem, curBase, log, t[r].values, First(log, j + 1, r + 1, true)))
    {
      hide Shape, WellFormed, Table, First, PairOk, Tally, On, Size;
      var j := First(log, i + 1, ID_ANY, false);
      NextRow(log, i + 1);
      RowsGrow(log, i + 1);
      if j < |log| {
        RowAt(chip.mem, curBase, curBase + regionSize, log, j);
      }
    }

    /** One round of sysparam_iter_next: the key of row r and, if it has one, its value. */
    method IterStep(ctx0: Context, ghost i: int, ghost r: nat)
      returns (status: Status, found: bool, key: Data, value: Value, ctx: Context, ghost j: int)
      requires Valid() && AtRow(ctx0, curBase, log, i, r)
      modifies this`forceCompact
      ensures forceCompact == old(forceCompact) && r <= |Table(log)|
      ensures status == if r == |Table(log)| then NotFound else Ok
      ensures status == Ok ==> AtRow(ctx, curBase, log, j, r + 1) && ctx.head.id == r + 1
      ensures status == Ok ==> found == (Table(log)[r].values != [])
      ensures status == Ok && found ==> key == Table(log)[r].key && value == Table(log)[r].values[0]
    {
      hide Valid, Table, First, Shape, Tally, CountedAll;
      key, value, found := [], Value([], false), false;
      IterKey(ctx0, i, r);
      j := First(log, i + 1, ID_ANY, false);
      status, ctx := Seek(ctx0, ID_ANY, false, i);
      if status != Ok {
        return;
      }
      var s, valueCtx := Seek(ctx, ctx.head.id, true, j);
      found := s == Ok;
      if found {
        key := ReadPayload(ctx, Table(log)[r].key);
        var data := ReadPayload(valueCtx, Table(log)[r].values[0].data);
        value := Value(data, valueCtx.head.binary);
      }
    }

    /** sysparam_iter_next: the next row that has a value. */
    method IterNext(ctx0: Context, ghost i: int, ghost r: nat)
      returns (status: Status, key: Data, value: Value, ctx: Context, ghost j: int)
      requires Valid() && AtRow(ctx0, curBase, log, i, r)
      modifies this`forceCompact
      ensures forceCompact == old(forceCompact)
      ensures IterFound(status, key, value, ctx, curBase, log, j, r)
    {
      ctx, j := ctx0, i;
      ghost var n := r;
      AtRowBound(ctx, curBase, log, i, r);
      hide Valid, Table, AtRow;
      while true
        invariant Valid() && forceCompact == old(forceCompact)
        invariant n <= |Table(log)| && AtRow(ctx, curBase, log, j, n)
        invariant r <= |Table(log)| && NextValued(Table(log), n) == NextValued(Table(log), r)
        decreases |Table(log)| - n
      {
        var found;
        status, found, key, value, ctx, j := IterStep(ctx, j, n);
        if status != Ok || found {
          return;
        }
        n := n + 1;
      }
    }

    // ---------------------------------------------------------------- compacting

    lemma {:induction false} FillValid(m0: seq<Byte>, h0: seq<seq<Byte>>, filled: seq<Entry>)
      requires chip.Valid() && Filling(chip.mem, m0, chip.history, h0, area, curBase, log, filled)
      requires altBase == area.Other(curBase) && regionSize == area.RegionSize() && endAddr == EndOf(curBase, log)
      ensures Valid()
    {
      hide Sound, Quiet, Shape;
      FillCuts(chip.mem, m0, chip.history, h0, area, curBase, log, filled);
    }

    lemma {:induction false} FillRoom(m0: seq<Byte>, h0: seq<seq<Byte>>, filled: seq<Entry>, e: Entry)
      requires Valid() && Filling(chip.mem, m0, chip.history, h0, area, curBase, log, filled)
      requires EntryOk(e) && Size(filled) + EntrySize(e) <= Size(log)
      ensures var p := EndOf(altBase, filled);
              && p + EntrySize(e) <= altBase + regionSize && p != endAddr
              && EntrySize(e) == ENTRY_HEADER_SIZE + |e.data|
              && InChip(chip.mem, p, EntrySize(e)) && ErasedFrom(chip.mem, p, p + EntrySize(e))
    {
    }

    /** One entry copied to the other region. */
    method FillEntry(addr: nat, head: Head, payload: Data, ghost m0: seq<Byte>, ghost h0: seq<seq<Byte>>,
                     ghost filled: seq<Entry>)
      returns (next: nat)
      requires Valid() && Filling(chip.mem, m0, chip.history, h0, area, curBase, log, filled)
      requires EntryOk(Entry(head, payload)) && IsLive(head) && addr == EndOf(altBase, filled)
      requires Size(filled) + EntrySize(Entry(head, payload)) <= Size(log)
      modifies chip, this`endAddr
      ensures Valid() && Filling(chip.mem, m0, chip.history, h0, area, curBase, log, filled + [Entry(head, payload)])
      ensures next == EndOf(altBase, filled + [Entry(head, payload)])
    {
      hide *;
      ghost var m, h := chip.mem, chip.history;
      FillRoom(m0, h0, filled, Entry(head, payload));
      Parts();
      var status := WriteEntry(addr, head, payload);
      FillStep(m0, h0, area, curBase, log, filled, Entry(head, payload), m, h, chip.mem, chip.history);
      FillValid(m0, h0, filled + [Entry(head, payload)]);
      next := addr + ENTRY_HEADER_SIZE + |payload|;
    }

    /** Copies one row: its key and, unless it is the one about to be set, its value. */
    method CopyNext(id: nat, key: Data, value: Value, addr: nat, keyId: int, count: nat,
                    ghost keyId0: int, ghost n: nat, ghost m0: seq<Byte>, ghost h0: seq<seq<Byte>>,
                        ghost filled: seq<Entry>)
      returns (addr': nat, keyId': int, count': nat, ghost filled': seq<Entry>)
      requires Valid() && Filling(chip.mem, m0, chip.history, h0, area, curBase, log, filled)
      requires addr == EndOf(altBase, filled) && Copied(filled, log, keyId0, n, keyId, count)
      requires RowIs(Table(log), n, id, key, value)
      modifies chip, this`endAddr
      ensures Valid() && Filling(chip.mem, m0, chip.history, h0, area, curBase, log, filled')
      ensures addr' == EndOf(altBase, filled') && Copied(filled', log, keyId0, n + 1, keyId', count')
    {
      hide *;
      Parts();
      count' := count + 1;
      var head := Head(true, false, false, false, count');
      CopyEntries(filled, log, keyId0, n, keyId, count, id, key, value);
      addr' := FillEntry(addr, head, key, m0, h0, filled);
      if id == keyId {
        keyId', filled' := count', filled + [Entry(head, key)];
      } else {
        var valueHead := Head(true, false, true, value.binary, count');
        addr' := FillEntry(addr', valueHead, value.data, m0, h0, filled + [Entry(head, key)]);
        keyId', filled' := keyId, filled + [Entry(head, key)] + [Entry(valueHead, value.data)];
      }
    }

    /** The copying loop of _compact_params. */
    method CopyRows(addr0: nat, keyId0: int, ghost m0: seq<Byte>, ghost h0: seq<seq<Byte>>)
      returns (addr: nat, keyId: int, count: nat, ghost filled: seq<Entry>)
      requires Valid() && Filling(chip.mem, m0, chip.history, h0, area, curBase, log, [])
      requires addr0 == EndOf(altBase, [])
      modifies chip, this`endAddr, this`forceCompact
      ensures Valid() && Filling(chip.mem, m0, chip.history, h0, area, curBase, log, filled)
      ensures addr == EndOf(altBase, filled) && Copied(filled, log, keyId0, |Table(log)|, keyId, count)
    {
      hide *;
      addr, keyId, count, filled := addr0, keyId0, 0, [];
      CopyStart(log, keyId0);
      var ctx := Start(curBase);
      StartHere(curBase);
      ghost var i, r := -1, 0;
      AtFirstRow(curBase, log);
      while true
        invariant Valid() && Filling(chip.mem, m0, chip.history, h0, area, curBase, log, filled)
        invariant addr == EndOf(altBase, filled) && AtRow(ctx, curBase, log, i, r)
        invariant Copied(filled, log, keyId0, r, keyId, count) && r <= |Table(log)|
        decreases |Table(log)| - r
      {
        CopyNothing(filled, log, keyId0, r, keyId, count);
        var status, key, value;
        status, key, value, ctx, i := IterNext(ctx, i, r);
        ghost var n := IterMeans(status, key, value, ctx, curBase, log, i, r);
        if status != Ok {
          return;
        }
        addr, keyId, count, filled :=
          CopyNext(ctx.head.id, key, value, addr, keyId, count, keyId0, n, m0, h0, filled);
        r := n + 1;
      }
    }

    /**
     * _compact_params: the other region gets the surviving rows and becomes current.
     * A cut before write `flip` shows the old parameters, one from then on the new ones.
     */
    method CompactParams(keyId0: int) returns (status: Status, keyId: int, count: nat, ghost flip: nat)
      requires Valid()
      modifies this, chip
      ensures Valid() && status == Ok && area == old(area) && !forceCompact
      ensures regionSize == old(regionSize) && curBase == old(altBase) && altBase == old(curBase)
      ensures log == PackedLog(Table(old(log)), SkipOf(keyId0)) && Table(log) == Packed(Table(old(log)), SkipOf(keyId0))
      ensures keyId == IdAfter(Table(old(log)), |Table(old(log))|, keyId0) && count == |Table(log)|
      ensures Superseded(chip.mem, area, curBase, old(log))
      ensures Grew(chip.history, old(chip.history)) && |old(chip.history)| <= flip < |chip.history|
      ensures AllShow(chip.history, |old(chip.history)|, flip, area, FaceOf(old(log)))
      ensures AllShow(chip.history, flip, |chip.history|, area, FaceOf(log))
    {
      hide *;
      ghost var m0, h0, log0, cur0, a := chip.mem, chip.history, log, curBase, area;
      Parts();
      AltRoom(m0, area, curBase, log);
      var newBase := altBase;
      status := FormatRegion(chip, newBase, regionSize / SECTOR_SIZE);
      FillStart(m0, chip.mem, chip.history, h0, area, curBase, log);
      FillValid(m0, h0, []);
      var addr;
      ghost var filled;
      addr, keyId, count, filled := CopyRows(newBase + REGION_HEADER_SIZE, keyId0, m0, h0);
      CopyEnd(filled, log, keyId0, keyId, count);
      PackedStands(log, SkipOf(keyId0));
      Parts();
      ghost var m, h := chip.mem, chip.history;
      ReadyToMark(m, m0, h, h0, area, curBase, log, filled);
      status := WriteRegionHeader(chip, newBase, curBase, true, area);
      ghost var m1 := chip.mem;
      MarkedNew(m, m1, area, curBase, log, filled);
      status := WriteRegionHeader(chip, curBase, newBase, false, area);
      SwitchDone(m, m0, h, h0, area, curBase, log, filled, m1, chip.mem);
      FlipBounds(m, m0, h, h0, area, curBase, log, filled, m1, chip.mem);
      flip := Flip(h, area, curBase);
      altBase, curBase, endAddr, forceCompact := curBase, newBase, addr, false;
      log := filled;
      Establish();
    }

    /** sysparam_compact: every cut shows the same parameters. */
    method Compact() returns (status: Status)
      requires curBase != 0 ==> Valid()
      modifies this, chip
      ensures old(curBase) == 0 ==> status == ErrNoInit && curBase == 0 && unchanged(chip)
      ensures old(curBase) != 0 ==>
                && Valid() && status == Ok && area == old(area) && Params() == old(Params())
                && DeadSize(log) == 0 && Orphans(log) == 0 && Single(Table(log)) && !HasUnused(Table(log))
                && Grew(chip.history, old(chip.history))
                && AllHold(chip.history, |old(chip.history)|, |chip.history|, area, old(Params()))
                && (Settled(old(log)) ==>
                     AllShow(chip.history, |old(chip.history)|, |chip.history|, area, FaceOf(old(log))))
    {
      if curBase == 0 {
        return ErrNoInit;
      }
      hide Valid, Table, View, Packed, PackedLog, AllShow, AllHold, Grew, DeadSize, Orphans, Single, HasUnused, Shape,
        Settled;
      ghost var log0 := log;
      Parts();
      var keyId, count;
      ghost var flip;
      status, keyId, count, flip := CompactParams(-1);
      CompactedAll(log0);
      HoldJoin(chip.history, |old(chip.history)|, flip, |chip.history|, area, FaceOf(log0), FaceOf(log));
    }

    // ------------------------------------------------------------------- setting

    /** Scans the rest of the log, so that everything has been counted. */
    method ScanToEnd(ctx: Context, ghost key: Data, ghost status: Status, ghost keyId: int,
                     ghost v: nat) returns (found: Context)
      requires Valid() && Located(key, status, keyId, ctx, curBase, log, v)
      modifies this`forceCompact
      ensures Valid() && CountedAll(found, log)
    {
      hide *;
      Parts();
      ScanRest(chip.mem, curBase, curBase + regionSize, log, key, status, keyId, ctx, v);
      var s;
      s, found := FindEntry(ctx, ID_END, false);
      Establish();
    }

    /** _compact_params as a set calls it. */
    method CompactFor(keyId: int, ghost r: int) returns (keyId': int, maxKeyId: nat, ghost k: nat)
      requires Valid() && keyId == KeyIdOf(r) && -1 <= r < |Table(log)|
      modifies this, chip
      ensures Valid() && area == old(area) && regionSize == old(regionSize) && !forceCompact
      ensures Phase(old(log), r, true, log, keyId', maxKeyId, 0) && Superseded(chip.mem, area, curBase, old(log))
      ensures Cut1(chip.history, old(chip.history), k, area, FaceOf(old(log)), FaceOf(log))
      ensures k < |chip.history|
      ensures altBase == old(curBase) && curBase == old(altBase)
    {
      hide *;
      var status;
      status, keyId', maxKeyId, k := CompactParams(keyId);
      CompactPhase(old(log), r, log, keyId', maxKeyId);
      MakeCut1(chip.history, old(chip.history), k, area, FaceOf(old(log)), FaceOf(log));
    }

    lemma {:induction false} NotCompacted(key: Data, status: Status, keyId: int, ctx: Context, v: nat)
      requires Valid() && Located(key, status, keyId, ctx, curBase, log, v)
      ensures var t := Table(log);
              var r := RowOf(t, key);
              && Phase(log, r, false, log, keyId, ctx.maxKeyId, ctx.unusedKeys)
              && keyId == KeyIdOf(r) && (keyId < 0 <==> r < 0)
              && (status == Ok ==> ENTRY_HEADER_SIZE + ctx.len == FirstValueSize(t, r))
              && (status != Ok ==> FirstValueSize(t, r) == 0)
              && curBase + regionSize - endAddr == Room(log, regionSize)
    {
      hide Table, PackedLog, Packed, Tally, WellFormed, Shape;
    }

    /** The first half of the space handling of sysparam_set_data: compact if that may make the entry fit. */
    method SpaceFor(needed: nat, key: Data, ghost data: Data, status: Status, keyId0: int, ctx: Context, ghost v: nat)
      returns (ok: bool, keyId: int, maxKeyId: nat, unused: int, dropped: bool, ghost k: nat)
      requires Valid() && Located(key, status, keyId0, ctx, curBase, log, v)
      requires needed == Needed(Table(log), key, data)
      modifies this, chip
      ensures Valid() && area == old(area) && regionSize == old(regionSize)
      ensures dropped == SpaceCompacts(old(log), regionSize, key, data)
      ensures Phase(old(log), RowOf(Table(old(log)), key), dropped, log, keyId, maxKeyId, unused)
      ensures ok == (needed <= Room(log, regionSize))
      ensures dropped ==> !forceCompact
      ensures !dropped ==> chip.mem == old(chip.mem) && chip.history == old(chip.history) && curBase == old(curBase)
      ensures !dropped && ok ==> forceCompact == old(forceCompact)
      ensures dropped ==> k < |chip.history|
      ensures Cut1(chip.history, old(chip.history), k, area, FaceOf(old(log)), FaceOf(log))
    {
      hide Valid, Located, CountedAll, Phase, Table, RowOf, Room, Needed, Cut1, View, FirstValueSize, DeadSize, Orphans,
        Sum;
      ghost var log0, r := log, RowOf(Table(log), key);
      NotCompacted(key, status, keyId0, ctx, v);
      SameCut1(chip.history, area, FaceOf(log));
      keyId, maxKeyId, unused, dropped, k := keyId0, ctx.maxKeyId, ctx.unusedKeys, false, |chip.history|;
      var free := curBase + regionSize - endAddr;
      if needed > free {
        var reclaimed := if status == Ok then ENTRY_HEADER_SIZE + ctx.len else 0;
        var end := ScanToEnd(ctx, key, status, keyId0, v);
        Counts(end, log);
        if needed <= free + end.compactable + reclaimed || end.unusedKeys > 0 {
          keyId, maxKeyId, k := CompactFor(keyId, r);
          unused, dropped := 0, true;
          RoomLeft();
        }
        free := curBase + regionSize - endAddr;
      }
      ok := needed <= free;
    }

    /** All of the space handling: afterwards there is room and an id, or the area is full. */
    method MakeRoom(needed: nat, key: Data, ghost data: Data, status: Status, keyId0: int, ctx: Context, ghost v: nat)
      returns (ok: bool, keyId: int, maxKeyId: nat, dropped: bool, ghost unused': int, ghost compacted: bool,
          ghost k: nat)
      requires Valid() && Located(key, status, keyId0, ctx, curBase, log, v)
      requires needed == Needed(Table(log), key, data)
      modifies this, chip
      ensures Valid() && area == old(area) && regionSize == old(regionSize)
      ensures var plan := PlanSet(old(log), regionSize, old(forceCompact), key, data);
              compacted == plan.compacts && ok == plan.Write?
      ensures Phase(old(log), RowOf(Table(old(log)), key), compacted, log, keyId, maxKeyId, unused')
      ensures ok ==> needed <= Room(log, regionSize) && (keyId < 0 ==> maxKeyId < MAX_KEY_ID) && !forceCompact
      ensures dropped ==> compacted
      ensures !compacted ==> chip.mem == old(chip.mem) && chip.history == old(chip.history) && curBase == old(curBase)
      ensures compacted && !dropped && ok ==> Superseded(chip.mem, area, curBase, old(log)) && altBase == old(curBase)
      ensures compacted ==> k < |chip.history|
      ensures Cut1(chip.history, old(chip.history), k, area, FaceOf(old(log)), FaceOf(log))
    {
      hide Valid, Located, Phase, Table, RowOf, Room, Needed, Cut1, View, PlanSet, SpaceCompacts, Unused, Superseded,
        LogOk, WellFormed;
      ghost var log0, r := log, RowOf(Table(log), key);
      Parts();
      var unused;
      ok, keyId, maxKeyId, unused, dropped, k := SpaceFor(needed, key, data, status, keyId0, ctx, v);
      compacted, unused' := dropped, unused;
      PlanIs(log0, regionSize, old(forceCompact), key, data, dropped, log, keyId, maxKeyId, unused);
      if !ok {
        return;
      }
      if keyId < 0 && maxKeyId >= MAX_KEY_ID {
        if unused > 0 {
          keyId, maxKeyId, k := CompactFor(keyId, r);
          dropped, compacted, unused' := true, true, 0;
          MoreRoom(log0, regionSize, r, log, keyId, maxKeyId);
        } else {
          return false, keyId, maxKeyId, dropped, unused', compacted, k;
        }
      }
      if forceCompact {
        keyId, maxKeyId, k := CompactFor(keyId, r);
        compacted, unused' := true, 0;
        MoreRoom(log0, regionSize, r, log, keyId, maxKeyId);
      }
    }

    /** Appends the value under an id that is already in the log (or lost to a compaction). */
    method WriteValue(keyId: nat, v: Value)
      requires Valid() && 1 <= keyId <= MAX_KEY_ID && |v.data| <= MAX_LEN
      requires ENTRY_HEADER_SIZE + |v.data| <= Room(log, regionSize)
      modifies chip, this`endAddr, this`log
      ensures Valid() && log == old(log) + [ValueEntry(keyId, v)] && Table(log) == AddAt(Table(old(log)), keyId - 1, v)
      ensures Orphans(log) == Orphans(old(log)) + if keyId > |Table(old(log))| then 1 else 0
      ensures Grew(chip.history, old(chip.history)) && |old(chip.history)| < |chip.history|
      ensures AllShow(chip.history, |old(chip.history)|, |chip.history| - 1, area, FaceOf(old(log)))
      ensures AllShow(chip.history, |chip.history| - 1, |chip.history|, area, FaceOf(log))
      ensures SameOutside(chip.mem, old(chip.mem), curBase, curBase + regionSize)
    {
      hide Valid, Table, Apply, AddAt, Orphans, AllShow, Grew, SameOutside, View, Room, Appendable;
      NewValue(log, curBase, regionSize, keyId, v);
      AppendEntry(Head(true, false, true, v.binary, keyId), v.data);
    }

    /** Appends the new value, preceded by its key if that is new. */
    method WriteParam(key: Data, keyId: int, maxKeyId: nat, v: Value)
      requires Valid() && Writable(log, keyId, maxKeyId, key, v)
      requires ENTRY_HEADER_SIZE + |v.data| + (if keyId < 0 then ENTRY_HEADER_SIZE + |key|
               else 0) <= Room(log, regionSize)
      modifies chip, this`endAddr, this`log
      ensures Valid() && Table(log) == Written(Table(old(log)), keyId, key, v)
      ensures keyId >= 0 ==> log == old(log) + [ValueEntry(keyId, v)]
      ensures Orphans(log) == Orphans(old(log)) + if keyId > |Table(old(log))| then 1 else 0
      ensures Grew(chip.history, old(chip.history)) && |old(chip.history)| < |chip.history|
      ensures AllShow(chip.history, |old(chip.history)|, |chip.history| - 1, area, FaceOf(old(log)))
      ensures AllShow(chip.history, |chip.history| - 1, |chip.history|, area, FaceOf(log))
      ensures SameOutside(chip.mem, old(chip.mem), curBase, curBase + regionSize)
    {
      hide Valid, Table, Apply, AddAt, Orphans, AllShow, Grew, SameOutside, View, Room, Appendable, WellFormed, LogOk,
        Sound, Shape, HasKey;
      if keyId >= 0 {
        WriteValue(keyId, v);
      } else {
        ghost var m0, h0, log0 := chip.mem, chip.history, log;
        Parts();
        NewKey(log, curBase, regionSize, maxKeyId, key, v);
        AppendEntry(Head(true, false, false, false, maxKeyId + 1), key);
        ghost var m1, h1 := chip.mem, chip.history;
        WriteValue(maxKeyId + 1, v);
        OnlyValue(Table(log0), key, v);
        JoinAppends(h0, h1, chip.history, area, FaceOf(log0));
        SameTwice(chip.mem, m1, m0, curBase, curBase + regionSize);
      }
    }

    /** Writes the entries of a set and deletes the old value, if it is still there. */
    method Finish(key: Data, val: Value, found: Status, ctx: Context, keyId: int, maxKeyId: nat, dropped: bool,
                  ghost log0: seq<Entry>,
                  ghost force: bool, ghost compacted: bool, ghost unused: int, ghost k: nat, ghost h0: seq<seq<Byte>>,
                  ghost keyId0: int, ghost v: nat, ghost base0: nat)
      returns (status: Status, ghost k1: nat, ghost k2: nat)
      requires Valid() && Ready(log0, regionSize, force, key, val, compacted, log, keyId, maxKeyId, unused)
      requires Located(key, found, keyId0, ctx, base0, log0, v)
      requires dropped ==> compacted
      requires if compacted then k < |chip.history| else chip.history == h0 && curBase == base0
      requires compacted && !dropped ==> Superseded(chip.mem, area, curBase, log0) && altBase == base0
      requires Cut1(chip.history, h0, k, area, FaceOf(log0), FaceOf(log))
      modifies chip, this`endAddr, this`log
      ensures Valid() && status == Ok && SetDone(log0, regionSize, force, key, val, Ok, log)
      ensures SetCuts(chip.history, h0, area, key, compacted, FaceOf(log0), FaceOf(log), k1, k2)
    {
      hide *;
      ghost var r, log1, m1, h1 := RowOf(Table(log0), key), log, chip.mem, chip.history;
      Parts();
      ReadyFacts(log0, regionSize, force, key, val, compacted, log, keyId, maxKeyId, unused);
      ReadyFace(log0, regionSize, force, key, val, compacted, log, keyId, maxKeyId, unused);
      LocatedMeans(key, found, keyId0, ctx, base0, log0, v);
      WriteParam(key, keyId, maxKeyId, val);
      ghost var log2, h2 := log, chip.history;
      if found == Ok && !dropped {
        OldReady(m1, chip.mem, area, curBase, base0, log0, log2, compacted, key, keyId0, ctx, v, keyId, val);
        status := DeleteOld(ctx.addr, compacted, log0, v, r);
        if compacted {
          WriteDone(log0, regionSize, force, key, val, compacted, log1, keyId, maxKeyId, unused, log);
          JoinCuts(h0, h1, h2, area, key, compacted, FaceOf(log0), FaceOf(log1), FaceOf(log), k);
          CutsMore(h2, chip.history, h0, area, key, FaceOf(log0), FaceOf(log), k, |h2| - 1);
          k1, k2 := k, |h2| - 1;
        } else {
          DropDone(log0, regionSize, force, key, val, log1, keyId, maxKeyId, unused, log2, log);
          ReplaceCuts(h0, h2, chip.history, area, key, FaceOf(log0), FaceOf(log));
          k1, k2 := |chip.history| - 2, |chip.history| - 1;
        }
      } else {
        status := Ok;
        WriteDone(log0, regionSize, force, key, val, compacted, log1, keyId, maxKeyId, unused, log);
        JoinCuts(h0, h1, h2, area, key, compacted, FaceOf(log0), FaceOf(log1), FaceOf(log), k);
        k1, k2 := if compacted then k else |h2| - 1, |h2| - 1;
      }
    }

    /** The part of sysparam_set_data that stores a value different from the one in use. */
    method Replace(key: Data, val: Value, found: Status, keyId0: int, ctx: Context, ghost v: nat)
      returns (status: Status, ghost k1: nat, ghost k2: nat)
      requires Valid() && Located(key, found, keyId0, ctx, curBase, log, v)
      requires 0 < |key| <= MAX_LEN && 0 < |val.data| <= MAX_LEN && !Stored(Table(log), key, val)
      modifies this, chip
      ensures Valid() && area == old(area) && regionSize == old(regionSize)
      ensures SetDone(old(log), regionSize, old(forceCompact), key, val, status, log)
      ensures (status == Ok && !forceCompact) || status == ErrFull
      ensures SetCuts(chip.history, old(chip.history), area, key,
              SetCompacts(old(log), regionSize, old(forceCompact), key, val),
                      FaceOf(old(log)), FaceOf(log), k1, k2)
    {
      hide *;
      ghost var log0, h0, r, base0, force := log, chip.history, RowOf(Table(log), key), curBase, forceCompact;
      Parts();
      var needed := ENTRY_HEADER_SIZE + |val.data| + (if keyId0 < 0 then ENTRY_HEADER_SIZE + |key| else 0);
      NeededIs(key, val, found, keyId0, ctx, curBase, log, v);
      var ok, keyId, maxKeyId, dropped;
      ghost var unused, compacted, k;
      ok, keyId, maxKeyId, dropped, unused, compacted, k := MakeRoom(needed, key, val.data, found, keyId0, ctx, v);
      ghost var plan := PlanSet(log0, regionSize, force, key, val.data);
      if !ok {
        FullDone(log0, regionSize, force, key, val, compacted, log, keyId, maxKeyId, unused);
        PhaseFace(log0, key, compacted, log, keyId, maxKeyId, unused);
        FullCuts(chip.history, h0, area, key, compacted, FaceOf(log0), FaceOf(log), k);
        return ErrFull, k, |chip.history|;
      }
      MakeReady(log0, regionSize, force, key, val, compacted, log, keyId, maxKeyId, unused);
      ReadyFacts(log0, regionSize, force, key, val, compacted, log, keyId, maxKeyId, unused);
      status, k1, k2 := Finish(key, val, found, ctx, keyId, maxKeyId, dropped, log0, force, compacted, unused, k, h0,
          keyId0, v, base0);
    }

    /**
     * sysparam_set_data.  `SetDone` says what becomes of the parameters; `SetCuts`
     * what a power cut after any of its flash writes shows: the old parameters
     * before write k1, all but the key between k1 and k2, the new ones from k2 on.  A value
     * that is there already, or is to be deleted and is not there, costs no write; a pending
     * request for a compaction is met by the next value that is written.
     */
    method Set(key: Data, value: Data, binary: bool) returns (status: Status, ghost k1: nat, ghost k2: nat)
      requires curBase != 0 ==> Valid()
      modifies this, chip
      ensures var k := if |key| <= MAX_LEN then key else Cut(key);
              if k == [] || |value| > MAX_LEN then status == ErrBadValue && unchanged(this) && unchanged(chip)
              else if old(curBase) == 0 then status == ErrNoInit && unchanged(this) && unchanged(chip)
              else
                && Valid() && area == old(area) && regionSize == old(regionSize)
                && var v, force := Value(value, binary), old(forceCompact);
                   && SetDone(old(log), regionSize, force, k, v, status, log)
                   && SetCuts(chip.history, old(chip.history), area, k, SetCompacts(old(log), regionSize, force, k, v),
                        FaceOf(old(log)), FaceOf(log), k1, k2)
                   && (status == NotFound || (value != [] && Stored(Table(old(log)), k, v)) ==> unchanged(chip))
                   && (value == [] || Stored(Table(old(log)), k, v) ==> forceCompact == force)
                   && (value != [] && !Stored(Table(old(log)), k, v) && status == Ok ==> !forceCompact)
    {
      CutExact(key);
      hide Cut, Valid, SetDone, SetCuts, SetCompacts, View, Table, Located, Stored, RowOf, PlanSet;
      k1, k2 := 0, 0;
      if |Cut(key)| == 0 || |value| > MAX_LEN {
        return ErrBadValue, k1, k2;
      }
      if curBase == 0 {
        return ErrNoInit, k1, k2;
      }
      var found, keyId, ctx;
      ghost var v;
      found, keyId, ctx, v := Locate(Cut(key));
      if value == [] {
        status, k1, k2 := Remove(Cut(key), found, ctx, binary, keyId, v);
        return;
      }
      var same := false;
      if found == Ok {
        same := SameValue(Cut(key), Value(value, binary), ctx, keyId, v);
      } else {
        NotStored(Cut(key), Value(value, binary), found, keyId, ctx, curBase, log, v);
      }
      if same {
        KeptDone(log, regionSize, forceCompact, Cut(key), Value(value, binary));
        NoCuts(chip.history, area, Cut(key), FaceOf(log));
        return Ok, |chip.history|, |chip.history|;
      }
      status, k1, k2 := Replace(Cut(key), Value(value, binary), found, keyId, ctx, v);
    }

    /** Setting an empty value deletes the parameter; if there is none the lookup's NotFound stays. */
    method Remove(key: Data, found: Status, ctx: Context, binary: bool, ghost keyId: int, ghost v: nat)
      returns (status: Status, ghost k1: nat, ghost k2: nat)
      requires Valid() && Located(key, found, keyId, ctx, curBase, log, v)
      modifies chip, this`log
      ensures Valid() && SetDone(old(log), regionSize, forceCompact, key, Value([], binary), status, log)
      ensures status == NotFound ==> unchanged(chip)
      ensures SetCuts(chip.history, old(chip.history), area, key,
                      SetCompacts(old(log), regionSize, forceCompact, key, Value([], binary)),
                      FaceOf(old(log)), FaceOf(log), k1, k2)
    {
      hide *;
      ghost var log0, h0, r := log, chip.history, RowOf(Table(log), key);
      LocatedMeans(key, found, keyId, ctx, curBase, log, v);
      Parts();
      if found == Ok {
        InUseHere(chip.mem, area, curBase, log, ctx.addr, v, r);
        status := DeleteOld(ctx.addr, false, log, v, r);
        RemoveDone(log0, regionSize, forceCompact, key, binary, log);
        OneCut(chip.history, h0, area, key, FaceOf(log0), FaceOf(log));
        k1, k2 := |chip.history| - 1, |chip.history| - 1;
      } else {
        AbsentDone(log0, regionSize, forceCompact, key, binary);
        NoCuts(chip.history, area, key, FaceOf(log));
        return NotFound, |chip.history|, |chip.history|;
      }
    }

    /** Is the value in use the one to be stored? */
    method SameValue(key: Data, val: Value, ctx: Context, ghost keyId: int, ghost v: nat) returns (same: bool)
      requires Valid() && Located(key, Ok, keyId, ctx, curBase, log, v)
      ensures same == Stored(Table(log), key, val)
    {
      hide Valid, Located, Stored, Table, View, RowOf;
      StoredIs(key, val, keyId, ctx, v);
      if ctx.head.binary != val.binary || ctx.len != |val.data| {
        return false;
      }
      var s := ComparePayload(ctx, val.data);
      return s == Ok;
    }

    lemma {:induction false} StoredIs(key: Data, val: Value, keyId: int, ctx: Context, v: nat)
      requires Valid() && Located(key, Ok, keyId, ctx, curBase, log, v)
      ensures var p := ctx.addr + ENTRY_HEADER_SIZE;
              && p + ctx.len <= |chip.mem|
              && (Stored(Table(log), key, val) <==>
                    ctx.head.binary == val.binary && chip.mem[p..p + ctx.len] == val.data)
    {
      hide Shape, PairOk, WellFormed, Table, Tally, Size;
      DecodeHeader(chip.mem, curBase, curBase + regionSize, log, v);
    }

    // ------------------------------------------------------------------- booting

    /** Reads the region header at addr. */
    method ReadRegion(addr: nat) returns (ok: bool, magic: bool, flags: Head)
      ensures ok == (addr + REGION_HEADER_SIZE <= |chip.mem|)
      ensures ok ==> magic == HasMagic(chip.mem, addr) && flags == FlagsAt(chip.mem, addr)
    {
      var b;
      ok, b := chip.Read(addr, REGION_HEADER_SIZE);
      if !ok {
        return ok, false, NO_HEAD;
      }
      magic := b[0] == 0x45 && b[1] == 0x4f && b[2] == 0x52 && b[3] == 0x70;
      flags := HeadOf(b[4] as nat + 0x100 * (b[5] as nat));
    }

    /** The scan for a region header at a sector boundary. */
    method FindHeader(start: nat, top: nat) returns (status: Status, addr: nat)
      ensures Probe(status, addr) == ScanMagic(chip.mem, start, top)
    {
      hide HasMagic, FlagsAt;
      addr := start;
      while addr < top
        invariant ScanMagic(chip.mem, addr, top) == ScanMagic(chip.mem, start, top)
      {
        var ok, magic, flags := ReadRegion(addr);
        if !ok {
          return ErrIo, addr;
        }
        if magic {
          return Ok, addr;
        }
        addr := addr + SECTOR_SIZE;
      }
      return NotFound, addr;
    }

    /** Reads the header at addr and that of its partner, and decides whether they make an area. */
    method PairUp(addr: nat) returns (status: Status, other: nat, sectors: nat, active: bool, found: bool)
      requires addr + REGION_HEADER_SIZE <= |chip.mem|
      ensures status == Diagnose(chip.mem, addr)
      ensures status == Ok ==> other == Partner(chip.mem, addr) && sectors == FlagsAt(chip.mem, addr).id
      ensures status == Ok ==> active == FlagsAt(chip.mem, addr).invalid && found == HasMagic(chip.mem, other)
    {
      hide HasMagic, FlagsAt;
      other, found := 0, false;
      var ok, magic, f := ReadRegion(addr);
      sectors, active := f.id, f.invalid;
      if f.alive && addr < sectors * SECTOR_SIZE {
        return ErrIo, other, sectors, active, found;
      }
      other := if f.alive then addr - sectors * SECTOR_SIZE else addr + sectors * SECTOR_SIZE;
      var ok1, magic1, f1 := ReadRegion(other);
      found := magic1;
      if !ok1 {
        status := ErrIo;
      } else if found && f1.alive == f.alive {
        status := ErrCorrupt;
      } else if !found && !active {
        status := ErrCorrupt;
      } else if (if f.alive then addr else other) + sectors * SECTOR_SIZE > |chip.mem| {
        status := ErrIo;
      } else {
        status := Ok;
      }
    }

    /** Formats the region at `other` and marks it as the stale partner of the one at addr. */
    method Recreate(addr: nat, other: nat, sectors: nat, ghost a: Area) returns (status: Status)
      requires chip.Valid() && AreaFits(a, |chip.mem|) && a.IsBase(addr) && other == a.Other(addr)
      requires sectors == a.sectors
      modifies chip
      ensures chip.Valid() && |chip.mem| == |old(chip.mem)| && status == Ok
      ensures forall log :: Sound(old(chip.mem), a, addr, log) ==>
                && Sound(chip.mem, a, addr, log) && Grew(chip.history, old(chip.history))
                && AllShow(chip.history, |old(chip.history)|, |chip.history|, a, FaceOf(log))
    {
      hide Shape, WellFormed, PairOk, View, Table, Splice, HasHeader, HasMagic, SameOutside, Trail, AllShow, Grew,
        Filling;
      ghost var m0, h0 := chip.mem, chip.history;
      status := FormatRegion(chip, other, sectors);
      ghost var m1, h1 := chip.mem, chip.history;
      BlankHeader(m0, other, sectors * SECTOR_SIZE);
      BackAgain(a, addr);
      status := WriteRegionHeader(chip, other, addr, false, a);
      forall log | Sound(m0, a, addr, log)
        ensures Sound(chip.mem, a, addr, log) && Grew(chip.history, h0)
        ensures AllShow(chip.history, |h0|, |chip.history|, a, FaceOf(log))
      {
        FillStart(m0, m1, h1, h0, a, addr, log);
        FillCuts(m1, m0, h1, h0, a, addr, log, []);
        MarkedStale(m1, chip.mem, a, addr, log);
        StaleCuts(h0, h1, chip.mem, m0, m1, a, addr, log);
      }
    }

    /**
     * sysparam_init.  On the bytes of a sound area it brings up exactly the parameters
     * they hold, repairing a missing stale region; cutting it short loses nothing.
     */
    method Init(base: nat, top: nat, ghost a: Area) returns (status: Status)
      requires chip.Valid()
      modifies this, chip
      ensures status == InitStatus(old(chip.mem), base, top)
      ensures status != Ok ==> unchanged(this) && unchanged(chip)
      ensures Bootable(old(chip.mem), a, base, top) ==>
                && status == Ok && Valid() && area == a && !forceCompact && log == BootLog(old(chip.mem), a)
                && Params() == BootView(old(chip.mem), a)
                && Grew(chip.history, old(chip.history))
                && AllShow(chip.history, |old(chip.history)|, |chip.history|, a, FaceOf(log))
    {
      hide *;
      ghost var m0, h0 := chip.mem, chip.history;
      var addr, other, sectors, active, found;
      status, addr := FindHeader(ScanStart(base), ScanTop(base, top));
      InitScan(m0, base, top, a, status, addr);
      if status != Ok {
        return;
      }
      ghost var at, log0 := InitPair(m0, base, top, a, addr);
      status, other, sectors, active, found := PairUp(addr);
      if status != Ok {
        return;
      }
      if !found {
        status := Recreate(addr, other, sectors, at);
      }
      InitBounds(chip.mem, at, addr, other, sectors);
      regionSize, forceCompact := sectors * SECTOR_SIZE, false;
      if active {
        curBase, altBase := addr, other;
      } else {
        curBase, altBase := other, addr;
      }
      area, log := at, log0;
      var ctx := Start(curBase);
      StartHere(curBase);
      EndIsOk(chip.mem, curBase, curBase + regionSize, ctx);
      if Bootable(m0, a, base, top) {
        NoStates(h0, at, FaceOf(log0));
        EndFound(chip.mem, a, curBase, log0);
      }
      status, ctx := FindEntry(ctx, ID_END, false);
      endAddr := ctx.addr;
      if Bootable(m0, a, base, top) {
        Establish();
        ParamsAre(View(Table(log0)));
      }
    }

    /** The scan of sysparam_create_area for anything that is not erased. */
    method ScanBlank(base: nat, sectors: nat) returns (status: Status)
      ensures status == Ok ==>
              base + sectors * SECTOR_SIZE <= |chip.mem| && ErasedFrom(chip.mem, base, base + sectors * SECTOR_SIZE)
      ensures status == NotFound ==>
              exists k :: base <= k < base + sectors * SECTOR_SIZE && k < |chip.mem| && chip.mem[k] != ERASED
      ensures status != Ok && status != NotFound ==> status == ErrIo && base + sectors * SECTOR_SIZE > |chip.mem|
      ensures sectors == 0 && base <= |chip.mem| ==> status == Ok
    {
      var n := 0;
      if sectors == 0 {
        return if base <= |chip.mem| then Ok else ErrIo;
      }
      while n < sectors * SECTOR_SIZE
        invariant 0 <= n <= sectors * SECTOR_SIZE && n % SCAN_BUFFER_SIZE == 0
        invariant n > 0 ==> base + n <= |chip.mem|
        invariant forall k :: base <= k < base + n ==> chip.mem[k] == ERASED
      {
        var ok, bytes := chip.Read(base + n, SCAN_BUFFER_SIZE);
        if !ok {
          return ErrIo;
        }
        BlankSlice(chip.mem, base + n, SCAN_BUFFER_SIZE);
        if bytes != Blank(SCAN_BUFFER_SIZE) {
          return NotFound;
        }
        n := n + SCAN_BUFFER_SIZE;
      }
      return Ok;
    }

    /** sysparam_create_area: two formatted regions, the first one active and empty. */
    method CreateArea(base: nat, numSectors: nat, force: bool) returns (status: Status)
      requires chip.Valid()
      modifies this, chip
      ensures chip.Valid() && |chip.mem| == |old(chip.mem)|
      ensures numSectors < 1 || numSectors % 2 == 1 ==> status == ErrBadValue && unchanged(this) && unchanged(chip)
      ensures numSectors >= 1 && numSectors % 2 == 0 ==>
                var size := numSectors * SECTOR_SIZE;
                && status != ErrBadValue
                && (status == NotFound ==>
                      && !force && unchanged(this) && unchanged(chip)
                      && exists k :: base <= k < base + size && k < |chip.mem| && chip.mem[k] != ERASED)
                && (status == Ok <==>
                      && base % SECTOR_SIZE == 0 && base + size <= |chip.mem|
                      && (force || ErasedFrom(old(chip.mem), base, base + size)))
                && SameOutside(chip.mem, old(chip.mem), base, base + size)
                && (status == Ok && base > 0 ==> Sound(chip.mem, Area(base, numSectors / 2), base, []))
                && (status == Ok && (old(curBase) == base || old(altBase) == base) ==> curBase == 0 && altBase == 0)
    {
      if numSectors < 1 || numSectors % 2 == 1 {
        return ErrBadValue;
      }
      var n := numSectors / 2;
      var regionBytes := n * SECTOR_SIZE;
      ghost var m0 := chip.mem;
      assert regionBytes + regionBytes == numSectors * SECTOR_SIZE;
      if !force {
        status := ScanBlank(base, numSectors);
        if status != Ok {
          return;
        }
      }
      if curBase == base || altBase == base {
        curBase, altBase, endAddr, regionSize, forceCompact := 0, 0, 0, 0, false;
      }
      status := FormatPair(base, n);
      if status == Ok {
        WithinTrail(chip.mem, m0, base, base + 2 * regionBytes, base + numSectors * SECTOR_SIZE);
      }
    }

    /** Formats both regions. */
    method EraseBoth(base: nat, n: nat) returns (status: Status)
      requires chip.Valid() && n > 0
      modifies chip
      ensures chip.Valid() && |chip.mem| == |old(chip.mem)|
      ensures status == if base % SECTOR_SIZE == 0 && base + 2 * (n * SECTOR_SIZE) <= |chip.mem| then Ok else ErrIo
      ensures SameOutside(chip.mem, old(chip.mem), base, base + 2 * (n * SECTOR_SIZE))
      ensures status == Ok ==> Erased2(chip.mem, base, n * SECTOR_SIZE)
    {
      hide Splice, Blank, SameOutside, Trail, Unmarked, Erased2;
      ghost var m0 := chip.mem;
      var size := n * SECTOR_SIZE;
      status := FormatRegion(chip, base, n);
      ghost var m1, h1 := chip.mem, chip.history;
      TrailWithin(h1, old(chip.history), m0, m1, base, base + size, base, base + 2 * size);
      if status != Ok {
        return;
      }
      status := FormatRegion(chip, base + size, n);
      TrailWithin(chip.history, h1, m1, chip.mem, base + size, base + size + size, base, base + 2 * size);
      SameTwice(chip.mem, m1, m0, base, base + 2 * size);
      if status == Ok {
        FreshBlank(m0, m1, chip.mem, base, size);
      }
    }

    /** Formats both regions and writes their headers. */
    method FormatPair(base: nat, n: nat) returns (status: Status)
      requires chip.Valid() && n > 0
      modifies chip
      ensures chip.Valid() && |chip.mem| == |old(chip.mem)|
      ensures status == if base % SECTOR_SIZE == 0 && base + 2 * (n * SECTOR_SIZE) <= |chip.mem| then Ok else ErrIo
      ensures SameOutside(chip.mem, old(chip.mem), base, base + 2 * (n * SECTOR_SIZE))
      ensures status == Ok && base > 0 ==> Sound(chip.mem, Area(base, n), base, [])
    {
      hide Sound, Splice, Blank, SameOutside, HasHeader, RegionHeader, Erased2;
      ghost var m0, a := chip.mem, Area(base, n);
      status := EraseBoth(base, n);
      if status != Ok {
        return;
      }
      var size := n * SECTOR_SIZE;
      ghost var m2 := chip.mem;
      HeadersBlank(m2, base, size);
      status := WriteRegionHeader(chip, base, base + size, true, a);
      ghost var m3 := chip.mem;
      StillBlank(m3, m2, base, size);
      status := WriteRegionHeader(chip, base + size, base, false, a);
      BothWritten(chip.mem, m3, m2, m0, base, size);
      FreshSound(m2, m3, chip.mem, a);
    }

    lemma {:induction false} ParamsAre(m: map<Data, Value>)
      requires m == View(Table(log))
      ensures Params() == m
    {
    }

    lemma {:induction false} RoomLeft()
      requires Valid()
      ensures curBase + regionSize - endAddr == Room(log, regionSize)
    {
    }
  }

  lemma {:induction false} LocatedMeans(key: Data, status: Status, keyId: int, ctx: Context, base: nat, log: seq<Entry>,
                                        v: nat)
    requires Located(key, status, keyId, ctx, base, log, v)
    ensures var r := RowOf(Table(log), key);
            && (status == Ok || status == NotFound)
            && (status != Ok ==> r < 0 || Table(log)[r].values == [])
            && (status == Ok ==> r >= 0 && Table(log)[r].values != [] && FirstValue(log, v, r)
                                 && v < |log| && ctx.addr == AddrOf(base, log, v))
  {
  }

  lemma {:induction false} NeededIs(key: Data, val: Value, status: Status, keyId: int, ctx: Context, base: nat,
                                    log: seq<Entry>, v: nat)
    requires Located(key, status, keyId, ctx, base, log, v)
    ensures Needed(Table(log), key, val.data)
         == ENTRY_HEADER_SIZE + |val.data| + if keyId < 0 then ENTRY_HEADER_SIZE + |key| else 0
  {
  }

  lemma {:induction false} MakeReady(log0: seq<Entry>, size: nat, force: bool, key: Data, v: Value, compacted: bool,
                                     log1: seq<Entry>, keyId: int, maxKeyId: nat, unused: int)
    requires LogOk(log0) && WellFormed(log0)
    requires Phase(log0, RowOf(Table(log0), key), compacted, log1, keyId, maxKeyId, unused)
    requires 0 < |key| <= MAX_LEN && 0 < |v.data| <= MAX_LEN && !Stored(Table(log0), key, v)
    requires PlanSet(log0, size, force, key, v.data).Write?
    requires PlanSet(log0, size, force, key, v.data).compacts == compacted
    requires Needed(Table(log0), key, v.data) <= Room(log1, size) && (keyId < 0 ==> maxKeyId < MAX_KEY_ID)
    ensures Ready(log0, size, force, key, v, compacted, log1, keyId, maxKeyId, unused)
  {
  }

  /** The old value is where it was found, unless it is now in the stale region. */
  lemma {:induction false} OldReady(m1: seq<Byte>, m: seq<Byte>, a: Area, cur: nat, base0: nat, log0: seq<Entry>,
                                    log2: seq<Entry>,
                                    compacted: bool, key: Data, keyId0: int, ctx: Context, v: nat, keyId: int,
                                        val: Value)
    requires Located(key, Ok, keyId0, ctx, base0, log0, v)
    requires compacted ==> Superseded(m1, a, cur, log0) && base0 == a.Other(cur) && a.IsBase(cur)
    requires compacted ==> SameOutside(m, m1, cur, cur + a.RegionSize())
    requires !compacted ==>
             cur == base0 && keyId == KeyIdOf(RowOf(Table(log0), key))
                 && (keyId >= 0 ==> log2 == log0 + [ValueEntry(keyId, val)])
    ensures var r := RowOf(Table(log0), key);
            && OldValue(m, a, cur, log2, ctx.addr, compacted, log0, v, r) && r >= 0 && Table(log0)[r].values != []
            && (!compacted ==> r < |Table(log2)| && Table(log2)[r].values != [])
  {
    var r := RowOf(Table(log0), key);
    hide Table, Superseded, SameOutside, Size;
    if compacted {
      SupersededKept(m1, m, a, cur, log0);
    } else {
      FirstValueStays(log0, v, r, ValueEntry(keyId, val));
      assert log2[..v] == log0[..v];
    }
  }

  lemma {:induction false} InUseHere(m: seq<Byte>, a: Area, cur: nat, log: seq<Entry>, addr: nat, v: nat, r: nat)
    requires FirstValue(log, v, r) && addr == AddrOf(cur, log, v)
    ensures OldValue(m, a, cur, log, addr, false, log, v, r)
  {
  }

  lemma {:induction false} RemoveDone(log0: seq<Entry>, size: nat, force: bool, key: Data, binary: bool,
                                      log1: seq<Entry>)
    requires var r := RowOf(Table(log0), key);
             r >= 0 && Table(log0)[r].values != [] && Table(log1) == DropFirst(Table(log0), r)
                 && Orphans(log1) == Orphans(log0)
    ensures SetDone(log0, size, force, key, Value([], binary), Ok, log1)
    ensures !SetCompacts(log0, size, force, key, Value([], binary))
  {
  }

  lemma {:induction false} AbsentDone(log: seq<Entry>, size: nat, force: bool, key: Data, binary: bool)
    requires RowOf(Table(log), key) < 0 || Table(log)[RowOf(Table(log), key)].values == []
    ensures SetDone(log, size, force, key, Value([], binary), NotFound, log)
    ensures !SetCompacts(log, size, force, key, Value([], binary))
  {
  }

  lemma {:induction false} KeptDone(log: seq<Entry>, size: nat, force: bool, key: Data, v: Value)
    requires v.data != [] && Stored(Table(log), key, v)
    ensures SetDone(log, size, force, key, v, Ok, log) && !SetCompacts(log, size, force, key, v)
  {
  }

  lemma {:induction false} NotStored(key: Data, val: Value, status: Status, keyId: int, ctx: Context, base: nat,
                                     log: seq<Entry>, v: nat)
    requires Located(key, status, keyId, ctx, base, log, v) && status != Ok
    ensures !Stored(Table(log), key, val)
  {
  }

  lemma {:induction false} OneCut(h: seq<seq<Byte>>, h0: seq<seq<Byte>>, a: Area, key: Data, m0: Face, m1: Face)
    requires Grew(h, h0) && |h| == |h0| + 1 && AllShow(h, |h0|, |h|, a, m1)
    ensures SetCuts(h, h0, a, key, false, m0, m1, |h| - 1, |h| - 1)
  {
  }

  lemma {:induction false} BlankHeader(m0: seq<Byte>, addr: nat, n: nat)
    requires addr + n <= |m0| && n >= REGION_HEADER_SIZE
    ensures Splice(m0, addr, Blank(n))[addr..addr + REGION_HEADER_SIZE] == Blank(REGION_HEADER_SIZE)
  {
  }

  /** The two regions of an area, seen from one of them. */
  lemma {:induction false} BackAgain(a: Area, addr: nat)
    requires a.IsBase(addr) && a.sectors > 0
    ensures a.IsBase(a.Other(addr)) && a.Other(a.Other(addr)) == addr
  {
  }

  lemma {:induction false} StaleCuts(h0: seq<seq<Byte>>, h1: seq<seq<Byte>>, m2: seq<Byte>, m0: seq<Byte>,
                                     m1: seq<Byte>, a: Area,
                                     cur: nat, log: seq<Entry>)
    requires Filling(m1, m0, h1, h0, a, cur, log, []) && AllShow(h1, |h0|, |h1|, a, FaceOf(log))
    requires Sound(m2, a, cur, log)
    ensures Grew(h1 + [m2], h0) && AllShow(h1 + [m2], |h0|, |h1 + [m2]|, a, FaceOf(log))
  {
    hide Sound, Shows;
    SoundShows(m2, a, cur, log);
  }

  lemma {:induction false} InitScan(mem: seq<Byte>, base: nat, top: nat, a: Area, status: Status, addr: nat)
    requires Probe(status, addr) == ScanMagic(mem, ScanStart(base), ScanTop(base, top))
    ensures Bootable(mem, a, base, top) ==> status == Ok
    ensures status == Ok ==> HasMagic(mem, addr) && addr + REGION_HEADER_SIZE <= |mem| && addr % SECTOR_SIZE == 0
    ensures InitStatus(mem, base, top) == if status == Ok then Diagnose(mem, addr) else status
  {
    hide Bootable, Diagnose;
    ScanAligned(mem, ScanStart(base), ScanTop(base, top));
    if Bootable(mem, a, base, top) {
      ScanArea(mem, a, base, top);
    }
  }

  lemma {:induction false} InitPair(mem: seq<Byte>, base: nat, top: nat, a: Area,
                                    addr: nat) returns (at: Area, log: seq<Entry>)
    requires addr + REGION_HEADER_SIZE <= |mem| && HasMagic(mem, addr) && addr % SECTOR_SIZE == 0
    requires Probe(Ok, addr) == ScanMagic(mem, ScanStart(base), ScanTop(base, top))
    ensures Bootable(mem, a, base, top) ==> Diagnose(mem, addr) == Ok
    ensures Diagnose(mem, addr) == Ok ==>
              && AreaFits(at, |mem|) && at.IsBase(addr) && at.Other(addr) == Partner(mem, addr)
              && at.sectors == FlagsAt(mem, addr).id
    ensures Bootable(mem, a, base, top) ==>
              var cur := if FlagsAt(mem, addr).invalid then addr else a.Other(addr);
              && at == a && AreaOk(a, |mem|) && log == BootLog(mem, a) && Sound(mem, a, cur, log)
              && BootView(mem, a) == View(Table(log))
              && a.Other(a.Other(addr)) == addr
              && (!HasMagic(mem, a.Other(addr)) ==> cur == addr)
  {
    hide HasMagic, FlagsAt, Shape, WellFormed, PairOk, Parse, Table, View;
    at, log := a, [];
    if Diagnose(mem, addr) == Ok {
      PairedArea(mem, addr);
      at := AreaAt(mem, addr);
    }
    if Bootable(mem, a, base, top) {
      ScanArea(mem, a, base, top);
      PairDiagnosed(mem, a, addr);
      log := BootLog(mem, a);
    }
  }

  lemma {:induction false} InitBounds(mem: seq<Byte>, a: Area, addr: nat, other: nat, sectors: nat)
    requires AreaFits(a, |mem|) && a.IsBase(addr) && other == a.Other(addr) && sectors == a.sectors
    ensures sectors * SECTOR_SIZE == a.RegionSize() && REGION_HEADER_SIZE <= sectors * SECTOR_SIZE
    ensures addr + sectors * SECTOR_SIZE <= |mem| && other + sectors * SECTOR_SIZE <= |mem|
  {
  }

  /** A scan for the end mark always succeeds. */
  lemma {:induction false} EndIsOk(mem: seq<Byte>, base: nat, end: nat, ctx: Context)
    requires base + REGION_HEADER_SIZE <= end <= |mem| && base <= ctx.addr <= end
    ensures Find(mem, base, end, ctx, ID_END, false).status == Ok
    decreases end - ctx.addr
  {
    var step := FindOnce(mem, base, end, ctx, ID_END, false);
    if step.Go? {
      EndIsOk(mem, base, end, step.ctx);
    }
  }

  lemma {:induction false} EndFound(mem: seq<Byte>, a: Area, cur: nat, log: seq<Entry>)
    requires Sound(mem, a, cur, log)
    ensures var end := cur + a.RegionSize();
            && cur + REGION_HEADER_SIZE <= end <= |mem|
            && var r := Find(mem, cur, end, Start(cur), ID_END, false);
               r.ctx.addr == EndOf(cur, log) && !r.truncated
  {
    hide Shape, Find, PairOk, WellFormed;
    var end := cur + a.RegionSize();
    ShapeEnds(mem, cur, end, log);
    FindInLog(mem, cur, end, log, Start(cur), -1, ID_END, false);
    NoEndId(log, 0);
  }

  lemma {:induction false} NoStates(h: seq<seq<Byte>>, a: Area, m: Face)
    ensures Grew(h, h) && AllShow(h, |h|, |h|, a, m)
  {
  }

  /** A stretch of flash is blank, or one of its bytes is not. */
  lemma {:induction false} BlankSlice(mem: seq<Byte>, at: nat, n: nat)
    requires at + n <= |mem|
    ensures mem[at..at + n] == Blank(n) ==> ErasedFrom(mem, at, at + n)
    ensures mem[at..at + n] != Blank(n) ==> exists k :: at <= k < at + n && mem[k] != ERASED
  {
    assert forall k :: at <= k < at + n ==> mem[k] == mem[at..at + n][k - at];
  }

  lemma {:induction false} TrailWithin(h: seq<seq<Byte>>, h0: seq<seq<Byte>>, m0: seq<Byte>, m: seq<Byte>, from: nat,
                                       to: nat,
                                       from': nat, to': nat)
    requires Trail(h, h0, m0, m, from, to) && from' <= from && to <= to'
    ensures SameOutside(m, m0, from', to')
  {
  }

  /** Both regions are erased. */
  ghost predicate Erased2(m: seq<Byte>, base: nat, size: nat) {
    size >= REGION_HEADER_SIZE && base + 2 * size <= |m| && m[base..base + 2 * size] == Blank(2 * size)
  }

  lemma {:induction false} FreshBlank(m0: seq<Byte>, m1: seq<Byte>, m2: seq<Byte>, base: nat, size: nat)
    requires size >= REGION_HEADER_SIZE && base + 2 * size <= |m0|
    requires m1 == Splice(m0, base, Blank(size)) && m2 == Splice(m1, base + size, Blank(size))
    ensures Erased2(m2, base, size)
  {
  }

  lemma {:induction false} HeadersBlank(m: seq<Byte>, base: nat, size: nat)
    requires Erased2(m, base, size)
    ensures m[base..base + REGION_HEADER_SIZE] == Blank(REGION_HEADER_SIZE)
    ensures m[base + size..base + size + REGION_HEADER_SIZE] == Blank(REGION_HEADER_SIZE)
  {
    SliceOfSlice(m, base, base + 2 * size, 0, REGION_HEADER_SIZE);
    SliceOfSlice(m, base, base + 2 * size, size, size + REGION_HEADER_SIZE);
  }

  lemma {:induction false} StillBlank(m3: seq<Byte>, m2: seq<Byte>, base: nat, size: nat)
    requires Erased2(m2, base, size) && SameOutside(m3, m2, base, base + REGION_HEADER_SIZE)
    ensures m3[base + size..base + size + REGION_HEADER_SIZE] == Blank(REGION_HEADER_SIZE)
  {
    HeadersBlank(m2, base, size);
    SameSlice(m3, m2, base + size, base + size + REGION_HEADER_SIZE);
  }

  lemma {:induction false} BothWritten(m4: seq<Byte>, m3: seq<Byte>, m2: seq<Byte>, m0: seq<Byte>, base: nat, size: nat)
    requires size >= REGION_HEADER_SIZE && SameOutside(m4, m3, base + size, base + size + REGION_HEADER_SIZE)
    requires SameOutside(m3, m2, base, base + REGION_HEADER_SIZE) && SameOutside(m2, m0, base, base + 2 * size)
    ensures SameOutside(m4, m0, base, base + 2 * size)
  {
  }

  /** A freshly created area is sound and empty. */
  lemma {:induction false} FreshSound(m2: seq<Byte>, m3: seq<Byte>, m4: seq<Byte>, a: Area)
    requires AreaFits(a, |m2|) && Erased2(m2, a.lo, a.RegionSize())
    requires HasHeader(m3, a.lo, a.sectors, false, true) && SameOutside(m3, m2, a.lo, a.lo + REGION_HEADER_SIZE)
    requires HasHeader(m4, a.Hi(), a.sectors, true, false) && SameOutside(m4, m3, a.Hi(), a.Hi() + REGION_HEADER_SIZE)
    ensures a.lo > 0 ==> Sound(m4, a, a.lo, [])
  {
    hide HasHeader, HasMagic;
    HeaderSame(m3, m4, a.lo, a.sectors, false, true);
    SliceOfSlice(m2, a.lo, a.lo + 2 * a.RegionSize(), 0, a.RegionSize());
    assert Blank(2 * a.RegionSize())[..a.RegionSize()] == Blank(a.RegionSize());
    BlankShape(m2, a.lo, a.Hi());
    ShapeSame(m2, m4, a.lo, a.Hi(), []);
  }

  lemma {:induction false} SameTwice(a: seq<Byte>, b: seq<Byte>, c: seq<Byte>, from: nat, to: nat)
    requires SameOutside(a, b, from, to) && SameOutside(b, c, from, to)
    ensures SameOutside(a, c, from, to)
  {
  }

  lemma {:induction false} Counts(ctx: Context, log: seq<Entry>)
    requires CountedAll(ctx, log)
    ensures ctx.unusedKeys == Unused(log) && ctx.compactable == DeadSize(log) && ctx.maxKeyId == |Table(log)|
  {
  }

  lemma {:induction false} MakeCut1(h: seq<seq<Byte>>, h0: seq<seq<Byte>>, k: nat, a: Area, m0: Face,
                                    m1: Face)
    requires Grew(h, h0) && |h0| <= k <= |h| && AllShow(h, |h0|, k, a, m0) && AllShow(h, k, |h|, a, m1)
    ensures Cut1(h, h0, k, a, m0, m1)
  {
  }

  lemma {:induction false} SameCut1(h: seq<seq<Byte>>, a: Area, m: Face)
    ensures Cut1(h, h, |h|, a, m, m)
  {
  }

  lemma {:induction false} CompactPhase(log: seq<Entry>, r: int, log1: seq<Entry>, keyId: int, count: nat)
    requires -1 <= r < |Table(log)|
    requires log1 == PackedLog(Table(log), SkipOf(KeyIdOf(r))) && Table(log1) == Packed(Table(log), SkipOf(KeyIdOf(r)))
    requires keyId == IdAfter(Table(log), |Table(log)|, KeyIdOf(r)) && count == |Table(log1)|
    ensures Phase(log, r, true, log1, keyId, count, 0)
  {
  }

  lemma {:induction false} ScanRest(mem: seq<Byte>, base: nat, end: nat, log: seq<Entry>, key: Data, status: Status,
                                    keyId: int,
                                    ctx: Context, v: nat)
    requires Shape(mem, base, end, log) && WellFormed(log) && Located(key, status, keyId, ctx, base, log, v)
    ensures base <= end && REGION_HEADER_SIZE <= end - base && end <= |mem| && base <= ctx.addr <= end
    ensures CountedAll(Find(mem, base, end, ctx, ID_END, false).ctx, log)
  {
    hide Shape, WellFormed, Find, First, Tally, On, Size, Sum, RowNet, DeadSize, Orphans, Table;
    ShapeEnds(mem, base, end, log);
    if status == Ok {
      FindInLog(mem, base, end, log, ctx, v, ID_END, false);
      NoEndId(log, v + 1);
      TallyJoin(base, log, Start(base), 0, v + 1, |log|);
      TallyAll(base, log);
    } else {
      FindFromEnd(mem, base, end, log, ctx);
    }
  }

  /** Compacting for its own sake keeps the parameters and leaves nothing to reclaim. */
  lemma {:induction false} CompactedAll(log: seq<Entry>)
    requires WellFormed(log)
    ensures SkipOf(-1) == NO_ROW
    ensures var packed := PackedLog(Table(log), NO_ROW);
            && View(Table(packed)) == View(Table(log)) && DeadSize(packed) == 0 && Orphans(packed) == 0
            && Single(Table(packed)) && !HasUnused(Table(packed)) && FaceOf(packed) == Face(View(Table(log)), true)
  {
    DistinctKeys(log);
    PackedTable(Table(log), NO_ROW);
    PackedView(Table(log), NO_ROW);
    PackedBound(Table(log), NO_ROW);
    PackedUsed(Table(log));
  }

  lemma {:induction false} PackedUsed(t: Rows)
    ensures !HasUnused(Packed(t, NO_ROW))
  {
    if t != [] {
      PackedUsed(t[..|t| - 1]);
      var q := Packed(t[..|t| - 1], NO_ROW);
      assert forall p :: 0 <= p < |q| ==> q[p].values != [];
    }
  }

  lemma {:induction false} PackedStands(log: seq<Entry>, skip: int)
    requires WellFormed(log)
    ensures WellFormed(PackedLog(Table(log), skip)) && Table(PackedLog(Table(log), skip)) == Packed(Table(log), skip)
  {
    DistinctKeys(log);
    PackedTable(Table(log), skip);
  }

  lemma {:induction false} StartHere(base: nat)
    ensures Start(base).addr == base
  {
  }

  lemma {:induction false} IterMeans(status: Status, key: Data, value: Value, ctx: Context, base: nat, log: seq<Entry>,
                                     j: int, r: nat) returns (n: nat)
    requires IterFound(status, key, value, ctx, base, log, j, r)
    ensures r <= |Table(log)| && n == NextValued(Table(log), r) && r <= n
    ensures status != Ok ==> n == |Table(log)|
    ensures status == Ok ==>
            n < |Table(log)| && RowIs(Table(log), n, ctx.head.id, key, value) && AtRow(ctx, base, log, j, n + 1)
  {
    n := NextValued(Table(log), r);
  }

  lemma {:induction false} FlipBounds(m: seq<Byte>, m0: seq<Byte>, h: seq<seq<Byte>>, h0: seq<seq<Byte>>, a: Area,
                                      cur: nat,
                   log: seq<Entry>, filled: seq<Entry>, m1: seq<Byte>, m2: seq<Byte>)
    requires Filling(m, m0, h, h0, a, cur, log, filled)
    ensures |h0| <= Flip(h, a, cur) < |h + [m1] + [m2]| && Grew(h + [m1] + [m2], h0)
  {
  }

  /** Row n, as the iterator reports it. */
  ghost predicate RowIs(t: Rows, n: nat, id: nat, key: Data, value: Value) {
    n < |t| && t[n].values != [] && id == n + 1 && key == t[n].key && value == t[n].values[0]
  }

  /** The entries that copy row n fit, and they advance the copy by one row. */
  lemma {:induction false} CopyEntries(filled: seq<Entry>, log: seq<Entry>, keyId0: int, n: nat, keyId: int, count: nat,
                                       id: nat, key: Data, value: Value)
    requires LogOk(log) && WellFormed(log) && Copied(filled, log, keyId0, n, keyId, count)
    requires RowIs(Table(log), n, id, key, value)
    ensures var k := Entry(Head(true, false, false, false, count + 1), key);
            var v := Entry(Head(true, false, true, value.binary, count + 1), value.data);
            && EntryOk(k) && EntryOk(v) && IsLive(k.head) && IsLive(v.head)
            && Size(filled) + EntrySize(k) <= Size(log)
            && (id == keyId ==> Copied(filled + [k], log, keyId0, n + 1, count + 1, count + 1))
            && (id != keyId ==>
                  && Size(filled + [k]) + EntrySize(v) <= Size(log)
                  && Copied(filled + [k] + [v], log, keyId0, n + 1, keyId, count + 1))
  {
    hide Copied, WellFormed, Table, Size;
    CopyRow(filled, log, keyId0, n, keyId, count);
    CopyFits(filled, log, keyId0, n, keyId, count);
    SizeAppend(filled, Entry(Head(true, false, false, false, count + 1), key));
  }

  /** The cursor has passed the keys of r rows. */
  ghost predicate AtRow(ctx: Context, base: nat, log: seq<Entry>, i: int, r: nat) {
    Scanned(ctx, base, log, i) && |Table(log[..i + 1])| == r
  }

  lemma {:induction false} AtRowBound(ctx: Context, base: nat, log: seq<Entry>, i: int, r: nat)
    requires AtRow(ctx, base, log, i, r)
    ensures r <= |Table(log)|
  {
    RowsGrow(log, i + 1);
  }

  lemma {:induction false} AtFirstRow(base: nat, log: seq<Entry>)
    ensures AtRow(Start(base), base, log, -1, 0)
  {
    assert log[..0] == [];
  }

  /** What iterating on from row r yields: the next row that has a value. */
  ghost predicate IterFound(status: Status, key: Data, value: Value, ctx: Context, base: nat, log: seq<Entry>, j: int,
                            r: nat) {
    && r <= |Table(log)|
    && var n := NextValued(Table(log), r);
       if n == |Table(log)| then status == NotFound
       else
         && status == Ok && AtRow(ctx, base, log, j, n + 1) && ctx.head.id == n + 1
         && key == Table(log)[n].key && value == Table(log)[n].values[0]
  }

  /** A search for a value with the given row's values ends at v. */
  ghost predicate ValueFound(mem: seq<Byte>, base: nat, log: seq<Entry>, values: seq<Value>, v: nat) {
    if values == [] then v == |log|
    else v < |log| && ValueOf(log[v]) == values[0] && PayloadIs(mem, AddrOf(base, log, v), values[0].data)
  }

  lemma {:induction false} RowAt(mem: seq<Byte>, base: nat, end: nat, log: seq<Entry>, j: nat)
    requires Shape(mem, base, end, log) && WellFormed(log) && j < |log| && IsLiveKey(log[j].head)
    ensures var r := |Table(log[..j])|;
            && r < |Table(log)| && Table(log)[r].key == log[j].data && log[j].head.id == r + 1 && r + 1 < ID_END
            && PayloadIs(mem, AddrOf(base, log, j), log[j].data)
            && ValueFound(mem, base, log, Table(log)[r].values, First(log, j + 1, r + 1, true))
  {
    hide Shape, WellFormed, Table, First, Size;
    ShapeEnds(mem, base, end, log);
    RowOfKey(log, j);
    ValueLookup(log, j);
    DecodeHeader(mem, base, end, log, j);
    assert EntryOk(log[j]);
    var v := First(log, j + 1, |Table(log[..j])| + 1, true);
    if v < |log| {
      DecodeHeader(mem, base, end, log, v);
    }
  }

  /** addr holds the value in use, or, if stale, entry v of the log that has been compacted away. */
  ghost predicate OldValue(m: seq<Byte>, a: Area, cur: nat, log: seq<Entry>, addr: nat, stale: bool, log0: seq<Entry>,
                           v: nat, r: nat) {
    if stale then Superseded(m, a, cur, log0) && v < |log0| && addr == AddrOf(a.Other(cur), log0, v)
    else FirstValue(log, v, r) && addr == AddrOf(cur, log, v)
  }

  lemma {:induction false} OldDeleted(m0: seq<Byte>, m: seq<Byte>, a: Area, cur: nat, log: seq<Entry>, addr: nat,
                                      stale: bool,
                                      log0: seq<Entry>, v: nat, r: nat, e: Entry)
    requires Sound(m0, a, cur, log) && OldValue(m0, a, cur, log, addr, stale, log0, v, r)
    requires e == (if stale then log0[v] else log[v]) && EntryOk(e) && HeadAt(m0, addr, e.head, |e.data|)
    requires m == Splice(m0, addr, Header(Word(e.head.(alive := false)), |e.data|))
    ensures stale ==> Sound(m, a, cur, log)
    ensures !stale ==>
              && FirstValue(log, v, r) && Sound(m, a, cur, log[v := Killed(log[v])])
              && EndOf(cur, log[v := Killed(log[v])]) == EndOf(cur, log)
              && Table(log[v := Killed(log[v])]) == DropFirst(Table(log), r)
              && Orphans(log[v := Killed(log[v])]) == Orphans(log)
  {
    hide Sound, Splice, Table, Orphans, Size, FirstValue, Superseded, Header, Word;
    if stale {
      SpliceSame(m0, addr, Header(Word(e.head.(alive := false)), |e.data|));
      KillStale(m0, m, a, cur, log, log0, v);
    } else {
      InUse(log, v, r);
      KillDone(m0, m, a, cur, log, v, r);
    }
  }

  lemma {:induction false} InUse(log: seq<Entry>, v: nat, r: nat)
    requires FirstValue(log, v, r)
    ensures v < |log| && r < |Table(log)| && Table(log)[r].values != []
  {
  }

  lemma {:induction false} OneMore(h: seq<seq<Byte>>, m: seq<Byte>)
    ensures Grew(h + [m], h)
  {
  }

  lemma {:induction false} HeadStored(mem: seq<Byte>, base: nat, end: nat, log: seq<Entry>, v: nat)
    requires Shape(mem, base, end, log) && v < |log|
    ensures EntryOk(log[v]) && HeadAt(mem, AddrOf(base, log, v), log[v].head, |log[v].data|)
  {
    StoredEntry(mem, base, end, log, v);
    var p := AddrOf(base, log, v);
    SliceOfSlice(mem, p, p + EntrySize(log[v]), 0, ENTRY_HEADER_SIZE);
    assert Encode(log[v])[..ENTRY_HEADER_SIZE] == Header(Word(log[v].head), |log[v].data|);
  }

  ghost predicate PayloadIs(mem: seq<Byte>, addr: nat, data: Data) {
    addr + ENTRY_HEADER_SIZE + |data| <= |mem|
        && mem[addr + ENTRY_HEADER_SIZE..addr + ENTRY_HEADER_SIZE + |data|] == data
  }

  /** The outcome of looking for the key entry of `key`: entry j, or none. */
  ghost predicate KeyFound(status: Status, ctx: Context, base: nat, log: seq<Entry>, j: int, key: Data) {
    if status == Ok then 0 <= j < |log| && Scanned(ctx, base, log, j) && IsLiveKey(log[j].head) && log[j].data == key
    else status == NotFound && ScannedAll(ctx, base, log) && !HasKey(Table(log), key)
  }

  lemma {:induction false} AtStart(base: nat, log: seq<Entry>, key: Data)
    ensures Scanned(Start(base), base, log, -1) && NoKeyYet(log, 0, key)
  {
    assert log[..0] == [];
  }

  /** What a lookup of the key finds: its row (-1: none) and the entry with its value (|log|: none). */
  ghost predicate Located(key: Data, status: Status, keyId: int, ctx: Context, base: nat, log: seq<Entry>, v: nat) {
    var t := Table(log);
    var r := RowOf(t, key);
    && keyId == (if r < 0 then -1 else r + 1)
    && (if r < 0 || t[r].values == [] then
          status == NotFound && ScannedAll(ctx, base, log) && v == |log|
        else
          status == Ok && v < |log| && Scanned(ctx, base, log, v) && FirstValue(log, v, r))
  }

  /** None of the keys before index n is `key`. */
  ghost predicate NoKeyYet(log: seq<Entry>, n: nat, key: Data) {
    n <= |log| && !HasKey(Table(log[..n]), key)
  }

  lemma {:induction false} NextKeyIs(log: seq<Entry>, n: nat, key: Data)
    requires WellFormed(log) && NoKeyYet(log, n, key)
    ensures var j := First(log, n, ID_ANY, false);
            && (j == |log| ==> !HasKey(Table(log), key))
            && (j < |log| ==> IsLiveKey(log[j].head) && (log[j].data != key ==> NoKeyYet(log, j + 1, key)))
  {
    var j := First(log, n, ID_ANY, false);
    NoKeySame(log, n, j);
    if j < |log| {
      TablePrefix(log, j);
    } else {
      assert log[..j] == log;
    }
  }

  /** Entries that are not live keys do not change which keys there are. */
  lemma {:induction false} NoKeySame(log: seq<Entry>, n: nat, m: nat)
    requires n <= m <= |log| && forall k :: n <= k < m ==> !IsLiveKey(log[k].head)
    ensures |Table(log[..n])| == |Table(log[..m])|
    ensures forall r :: 0 <= r < |Table(log[..n])| ==> Table(log[..n])[r].key == Table(log[..m])[r].key
    decreases m
  {
    if n < m {
      NoKeySame(log, n, m - 1);
      TablePrefix(log, m - 1);
    }
  }

  lemma {:induction false} KeyThenValue(log: seq<Entry>, j: nat, key: Data)
    requires LogOk(log) && WellFormed(log) && j < |log| && IsLiveKey(log[j].head) && log[j].data == key
    ensures var id := log[j].head.id;
            var v := First(log, j + 1, id, true);
            && id <= MAX_KEY_ID && id >= 1 && RowOf(Table(log), key) == id - 1
            && (if Table(log)[id - 1].values == [] then v == |log| else FirstValue(log, v, id - 1))
  {
    RowOfKey(log, j);
    DistinctKeys(log);
    RowUnique(Table(log), |Table(log[..j])|);
    ValueLookup(log, j);
    NothingBefore(log, j);
    assert EntryOk(log[j]);
  }

  lemma {:induction false} ChunkCompare(mem: seq<Byte>, p: nat, value: Data, i: nat, n: nat)
    requires p + |value| <= |mem| && i + n <= |value| && mem[p..p + i] == value[..i]
    ensures mem[p + i..p + i + n] == value[i..i + n] <==> mem[p..p + i + n] == value[..i + n]
    ensures mem[p + i..p + i + n] != value[i..i + n] ==> mem[p..p + |value|] != value
  {
    var whole := mem[p..p + |value|];
    SliceOfSlice(mem, p, p + |value|, i, i + n);
    assert mem[p..p + i + n] == mem[p..p + i] + mem[p + i..p + i + n];
    assert value[..i + n] == value[..i] + value[i..i + n];
    assert (mem[p..p + i] + mem[p + i..p + i + n])[i..] == mem[p + i..p + i + n];
    assert (value[..i] + value[i..i + n])[i..] == value[i..i + n];
    assert whole == value ==> whole[i..i + n] == value[i..i + n];
  }
}
