/**
 * The routines of core/sysparam.c that touch the flash: verified writes, region
 * formatting and headers, and writing and deleting entries.  Each says which bytes
 * it changes and what every chip state on the way can look like, so that power
 * cuts can be reasoned about.
 */
module SysparamFlash {
  import opened Bytes
  import opened Flash
  import opened SysparamLog
  import opened SysparamRegion
  import opened SysparamBoot

  const BOUNCE_BUFFER_SIZE: nat := 12

  /**
   * The chip went from m0 to m and its history from h0 to h; every state on the
   * way, m included, differs from m0 at most in [from, to).
   */
  ghost predicate Trail(h: seq<seq<Byte>>, h0: seq<seq<Byte>>, m0: seq<Byte>, m: seq<Byte>, from: nat, to: nat) {
    && |h0| <= |h| && h[..|h0|] == h0
    && (forall i :: |h0| <= i < |h| ==> SameOutside(h[i], m0, from, to))
    && (if |h| == |h0| then m == m0 else m == h[|h| - 1])
  }

  lemma {:induction false} TrailStep(h: seq<seq<Byte>>, h0: seq<seq<Byte>>, m0: seq<Byte>, m: seq<Byte>, m': seq<Byte>,
                                     from: nat, to: nat)
    requires Trail(h, h0, m0, m, from, to) && SameOutside(m', m0, from, to)
    ensures Trail(h + [m'], h0, m0, m', from, to)
  {
  }

  /** One more verified chunk. */
  lemma {:induction false} ChunkWritten(m0: seq<Byte>, addr: nat, data: seq<Byte>, i: nat, n: nat)
    requires InChip(m0, addr, |data|) && i + n <= |data|
    ensures var m, chunk := Splice(m0, addr, data[..i]), data[i..i + n];
            && Program(m, addr + i, chunk)[addr + i..addr + i + n] == Blend(m0[addr + i..addr + i + n], chunk)
            && SameOutside(Program(m, addr + i, chunk), m0, addr, addr + |data|)
            && (Blend(m0[addr + i..addr + i + n], chunk) == chunk ==>
                  Program(m, addr + i, chunk) == Splice(m0, addr, data[..i + n]))
  {
    var m, chunk := Splice(m0, addr, data[..i]), data[i..i + n];
    assert m[addr + i..addr + i + n] == m0[addr + i..addr + i + n];
    assert m[addr + i + n..] == m0[addr + i + n..];
    assert m[..addr + i] + chunk == m0[..addr] + data[..i + n];
  }

  lemma {:induction false} BlendJoin(cells: seq<Byte>, data: seq<Byte>, i: nat, n: nat)
    requires |cells| == |data| && i + n <= |data|
    ensures Blend(cells[..i + n], data[..i + n]) == data[..i + n]
       <==> Blend(cells[..i], data[..i]) == data[..i] && Blend(cells[i..i + n], data[i..i + n]) == data[i..i + n]
  {
    assert cells[..i + n] == cells[..i] + cells[i..i + n];
    var all := Blend(cells[..i + n], data[..i + n]);
    assert all == Blend(cells[..i], data[..i]) + Blend(cells[i..i + n], data[i..i + n]);
    assert data[..i + n] == data[..i] + data[i..i + n];
    assert all[..i] == Blend(cells[..i], data[..i]);
    assert all[i..] == Blend(cells[i..i + n], data[i..i + n]);
    assert data[..i + n][..i] == data[..i] && data[..i + n][i..] == data[i..i + n];
  }

  /** The first i bytes of data can be programmed over the cells at addr. */
  ghost predicate Takes(mem: seq<Byte>, addr: nat, data: seq<Byte>, i: nat)
    requires InChip(mem, addr, |data|) && i <= |data|
  {
    Blend(mem[addr..addr + i], data[..i]) == data[..i]
  }

  lemma {:induction false} TakesStep(mem: seq<Byte>, addr: nat, data: seq<Byte>, i: nat, n: nat)
    requires InChip(mem, addr, |data|) && i + n <= |data|
    ensures Takes(mem, addr, data, i + n)
       <==> Takes(mem, addr, data, i) && Blend(mem[addr + i..addr + i + n], data[i..i + n]) == data[i..i + n]
  {
    SliceOfSlice(mem, addr, addr + |data|, i, i + n);
    SliceOfSlice(mem, addr, addr + |data|, 0, i + n);
    SliceOfSlice(mem, addr, addr + |data|, 0, i);
    BlendJoin(mem[addr..addr + |data|], data, i, n);
  }

  lemma {:induction false} TakesAll(mem: seq<Byte>, addr: nat, data: seq<Byte>, i: nat)
    requires InChip(mem, addr, |data|) && i <= |data|
    ensures Takes(mem, addr, data, |data|) ==> Takes(mem, addr, data, i)
    ensures Takes(mem, addr, data, |data|) <==> Blend(mem[addr..addr + |data|], data) == data
    ensures Takes(mem, addr, data, 0)
  {
    TakesStep(mem, addr, data, i, |data| - i);
    assert data[..|data|] == data;
  }

  /** Writes and verifies data[i..i + n], the part before it being written. */
  method WriteChunk(chip: Chip, addr: nat, data: seq<Byte>, i: nat, n: nat, ghost m0: seq<Byte>,
                    ghost h0: seq<seq<Byte>>)
    returns (ok: bool)
    requires chip.Valid() && InChip(m0, addr, |data|) && i + n <= |data| && n > 0
    requires |chip.mem| == |m0| && chip.mem == Splice(m0, addr, data[..i]) && Takes(m0, addr, data, i)
    requires Trail(chip.history, h0, m0, chip.mem, addr, addr + |data|)
    modifies chip
    ensures chip.Valid() && |chip.mem| == |m0|
    ensures ok == Takes(m0, addr, data, i + n)
    ensures ok ==> chip.mem == Splice(m0, addr, data[..i + n])
    ensures Trail(chip.history, h0, m0, chip.mem, addr, addr + |data|)
    ensures chip.history == old(chip.history) + [chip.mem]
  {
    hide Trail, Program, Splice, Blend, Takes;
    TakesStep(m0, addr, data, i, n);
    ChunkWritten(m0, addr, data, i, n);
    TrailStep(chip.history, h0, m0, chip.mem, Program(chip.mem, addr + i, data[i..i + n]), addr, addr + |data|);
    var sent := chip.Write(addr + i, data[i..i + n]);
    var read, back := chip.Read(addr + i, n);
    ok := back == data[i..i + n];
  }

  /** _write_and_verify: writes in 12-byte chunks and reads each one back. */
  method WriteAndVerify(chip: Chip, addr: nat, data: seq<Byte>) returns (status: Status)
    requires chip.Valid() && InChip(chip.mem, addr, |data|)
    modifies chip
    ensures chip.Valid() && |chip.mem| == |old(chip.mem)|
    ensures status == if Blend(old(chip.mem)[addr..addr + |data|], data) == data then Ok else ErrIo
    ensures status == Ok ==> chip.mem == Splice(old(chip.mem), addr, data)
    ensures Trail(chip.history, old(chip.history), old(chip.mem), chip.mem, addr, addr + |data|)
    ensures 0 < |data| <= BOUNCE_BUFFER_SIZE ==> chip.history == old(chip.history) + [chip.mem]
  {
    ghost var m0, h0 := chip.mem, chip.history;
    assert Splice(m0, addr, data[..0]) == m0;
    assert Trail(chip.history, h0, m0, chip.mem, addr, addr + |data|);
    hide Trail, Takes, Splice, Blend, Program;
    TakesAll(m0, addr, data, 0);
    var i := 0;
    while i < |data|
      invariant 0 <= i <= |data| && chip.Valid()
      invariant |chip.mem| == |m0| && chip.mem == Splice(m0, addr, data[..i]) && Takes(m0, addr, data, i)
      invariant Trail(chip.history, h0, m0, chip.mem, addr, addr + |data|)
      invariant |data| <= BOUNCE_BUFFER_SIZE ==> chip.history == if i == 0 then h0 else h0 + [chip.mem]
      invariant |data| <= BOUNCE_BUFFER_SIZE ==> i == 0 || i == |data|
    {
      var count := Min(|data| - i, BOUNCE_BUFFER_SIZE);
      TakesAll(m0, addr, data, i + count);
      var ok := WriteChunk(chip, addr, data, i, count, m0, h0);
      if !ok {
        return ErrIo;
      }
      i := i + count;
    }
    assert data[..|data|] == data;
    return Ok;
  }

  // ------------------------------------------------------------------ regions

  /** From index n on, no state has a region header at addr. */
  ghost predicate Unmarked(h: seq<seq<Byte>>, n: nat, addr: nat) {
    forall i :: n <= i < |h| ==> !HasMagic(h[i], addr)
  }

  lemma {:induction false} EraseNext(m0: seq<Byte>, addr: nat, i: nat)
    requires addr + (i + 1) * SECTOR_SIZE <= |m0|
    ensures var m := Splice(m0, addr, Blank(i * SECTOR_SIZE));
            && Erase(m, addr + i * SECTOR_SIZE) == Splice(m0, addr, Blank((i + 1) * SECTOR_SIZE))
  {
    var m := Splice(m0, addr, Blank(i * SECTOR_SIZE));
    assert m[..addr + i * SECTOR_SIZE] == m0[..addr] + Blank(i * SECTOR_SIZE);
    assert m[addr + (i + 1) * SECTOR_SIZE..] == m0[addr + (i + 1) * SECTOR_SIZE..];
    assert Blank(i * SECTOR_SIZE) + Blank(SECTOR_SIZE) == Blank((i + 1) * SECTOR_SIZE);
  }

  lemma {:induction false} BlankUnmarked(m0: seq<Byte>, addr: nat, n: nat)
    requires addr + n <= |m0| && n >= REGION_HEADER_SIZE
    ensures !HasMagic(Splice(m0, addr, Blank(n)), addr)
  {
    assert Splice(m0, addr, Blank(n))[addr] == Blank(n)[0];
  }

  /** _format_region: erases sector by sector, the one with the header first. */
  method FormatRegion(chip: Chip, addr: nat, sectors: nat) returns (status: Status)
    requires chip.Valid()
    modifies chip
    ensures chip.Valid() && |chip.mem| == |old(chip.mem)|
    ensures status == if sectors == 0 || (addr % SECTOR_SIZE == 0 && addr + sectors * SECTOR_SIZE <= |chip.mem|)
            then Ok else ErrIo
    ensures status == Ok && sectors > 0 ==> chip.mem == Splice(old(chip.mem), addr, Blank(sectors * SECTOR_SIZE))
    ensures Trail(chip.history, old(chip.history), old(chip.mem), chip.mem, addr, addr + sectors * SECTOR_SIZE)
    ensures Unmarked(chip.history, |old(chip.history)|, addr)
  {
    ghost var m0, h0, end := chip.mem, chip.history, addr + sectors * SECTOR_SIZE;
    assert addr <= |m0| ==> Splice(m0, addr, Blank(0)) == m0;
    assert Trail(chip.history, h0, m0, chip.mem, addr, end);
    hide Splice, HasMagic, Erase, Trail, Blank;
    for i := 0 to sectors
      invariant chip.Valid() && |chip.mem| == |m0|
      invariant (i > 0 ==> addr % SECTOR_SIZE == 0 && addr + i * SECTOR_SIZE <= |m0|)
      invariant if addr + i * SECTOR_SIZE <= |m0| then chip.mem == Splice(m0, addr, Blank(i * SECTOR_SIZE))
                else chip.mem == m0
      invariant Trail(chip.history, h0, m0, chip.mem, addr, end)
      invariant Unmarked(chip.history, |h0|, addr)
    {
      var ok := FormatSector(chip, addr, i, m0, h0, end);
      if !ok {
        return ErrIo;
      }
    }
    return Ok;
  }

  /** Erases sector i of the region at addr, the sectors before it being erased. */
  method FormatSector(chip: Chip, addr: nat, i: nat, ghost m0: seq<Byte>, ghost h0: seq<seq<Byte>>,
                      ghost end: nat) returns (ok: bool)
    requires chip.Valid() && |chip.mem| == |m0| && addr + (i + 1) * SECTOR_SIZE <= end
    requires addr + i * SECTOR_SIZE <= |m0| ==> chip.mem == Splice(m0, addr, Blank(i * SECTOR_SIZE))
    requires Trail(chip.history, h0, m0, chip.mem, addr, end) && Unmarked(chip.history, |h0|, addr)
    modifies chip
    ensures chip.Valid() && |chip.mem| == |m0|
    ensures ok == (addr % SECTOR_SIZE == 0 && addr + (i + 1) * SECTOR_SIZE <= |m0|)
    ensures if ok then chip.mem == Splice(m0, addr, Blank((i + 1) * SECTOR_SIZE)) else chip.mem == old(chip.mem)
    ensures Trail(chip.history, h0, m0, chip.mem, addr, end) && Unmarked(chip.history, |h0|, addr)
  {
    hide Splice, HasMagic, Erase, Trail, Blank;
    ok := chip.EraseSector(addr + i * SECTOR_SIZE);
    if ok {
      ghost var next := Splice(m0, addr, Blank((i + 1) * SECTOR_SIZE));
      EraseNext(m0, addr, i);
      BlankUnmarked(m0, addr, (i + 1) * SECTOR_SIZE);
      SpliceSame(m0, addr, Blank((i + 1) * SECTOR_SIZE));
      WithinTrail(next, m0, addr, addr + (i + 1) * SECTOR_SIZE, end);
      TrailStep(old(chip.history), h0, m0, old(chip.mem), next, addr, end);
    }
  }

  lemma {:induction false} WithinTrail(m: seq<Byte>, m0: seq<Byte>, from: nat, to: nat, end: nat)
    requires SameOutside(m, m0, from, to) && to <= end
    ensures SameOutside(m, m0, from, end)
  {
  }

  /** _write_region_header: marks the region at addr, whose partner is at other. */
  method WriteRegionHeader(chip: Chip, addr: nat, other: nat, active: bool, ghost a: Area) returns (status: Status)
    requires chip.Valid() && AreaFits(a, |chip.mem|) && a.IsBase(addr) && other == a.Other(addr)
    requires || chip.mem[addr..addr + REGION_HEADER_SIZE] == Blank(REGION_HEADER_SIZE)
             || (!active && HasHeader(chip.mem, addr, a.sectors, addr == a.Hi(), true))
    modifies chip
    ensures chip.Valid() && status == Ok
    ensures chip.mem == Splice(old(chip.mem), addr, RegionHeader(a.sectors, addr == a.Hi(), active))
    ensures HasHeader(chip.mem, addr, a.sectors, addr == a.Hi(), active)
    ensures SameOutside(chip.mem, old(chip.mem), addr, addr + REGION_HEADER_SIZE)
    ensures chip.history == old(chip.history) + [chip.mem]
  {
    var second := addr >= other;
    var sectors := (if addr < other then (other - addr) / SECTOR_SIZE else (addr - other) / SECTOR_SIZE) % 0x1000;
    assert sectors == a.sectors && second == (addr == a.Hi());
    var header := RegionHeader(sectors, second, active);
    hide RegionHeader, HasHeader, Blend, Program, Splice;
    RegionHeaderTakes(chip.mem, addr, sectors, second, active);
    SpliceSame(chip.mem, addr, header);
    status := WriteAndVerify(chip, addr, header);
    SplicedHeader(old(chip.mem), addr, sectors, second, active);
  }

  lemma {:induction false} RegionHeaderTakes(mem: seq<Byte>, addr: nat, sectors: nat, second: bool, active: bool)
    requires sectors <= 0xfff && InChip(mem, addr, REGION_HEADER_SIZE)
    requires || mem[addr..addr + REGION_HEADER_SIZE] == Blank(REGION_HEADER_SIZE)
             || (!active && HasHeader(mem, addr, sectors, second, true))
    ensures Blend(mem[addr..addr + REGION_HEADER_SIZE], RegionHeader(sectors, second, active))
            == RegionHeader(sectors, second, active)
  {
    var to := RegionHeader(sectors, second, active);
    if mem[addr..addr + REGION_HEADER_SIZE] == Blank(REGION_HEADER_SIZE) {
      BlankTakes(to);
    } else {
      StaleTakes(sectors, second);
    }
  }

  lemma {:induction false} BlankTakes(data: seq<Byte>)
    ensures Blend(Blank(|data|), data) == data
  {
    forall i | 0 <= i < |data|
      ensures And(Blank(|data|)[i], data[i]) == data[i]
    {
      assert Bit(8) == 256 by { assert Bit(4) == 16; }
      AndOnes(8, data[i]);
    }
  }

  lemma {:induction false} SplicedHeader(mem: seq<Byte>, addr: nat, sectors: nat, second: bool, active: bool)
    requires sectors <= 0xfff && InChip(mem, addr, REGION_HEADER_SIZE)
    ensures HasHeader(Splice(mem, addr, RegionHeader(sectors, second, active)), addr, sectors, second, active)
  {
    SpliceSame(mem, addr, RegionHeader(sectors, second, active));
  }

  // ------------------------------------------------------------------ entries

  /** The states while an entry is being written: its header says invalid until the last one. */
  ghost predicate WritingEntry(h: seq<seq<Byte>>, n: nat, addr: nat, head: Head, len: nat)
    requires head.id < 0x1000 && len <= MAX_LEN
  {
    forall i :: n <= i < |h| - 1 ==> HeadAt(h[i], addr, head.(invalid := true), len)
  }

  ghost predicate HeadAt(m: seq<Byte>, addr: nat, head: Head, len: nat)
    requires head.id < 0x1000 && len <= MAX_LEN
  {
    InChip(m, addr, ENTRY_HEADER_SIZE) && m[addr..addr + ENTRY_HEADER_SIZE] == Header(Word(head), len)
  }

  /** _write_entry: header marked invalid, then the payload, then the header again without the mark. */
  method PutEntry(chip: Chip, addr: nat, head: Head, payload: Data) returns (status: Status)
    requires chip.Valid() && EntryOk(Entry(head, payload)) && IsLive(head)
    requires InChip(chip.mem, addr, ENTRY_HEADER_SIZE + |payload|)
    requires ErasedFrom(chip.mem, addr, addr + ENTRY_HEADER_SIZE + |payload|)
    modifies chip
    ensures chip.Valid() && status == Ok
    ensures chip.mem == Splice(old(chip.mem), addr, Encode(Entry(head, payload)))
    ensures Trail(chip.history, old(chip.history), old(chip.mem), chip.mem, addr, addr + ENTRY_HEADER_SIZE + |payload|)
    ensures |chip.history| > |old(chip.history)|
    ensures WritingEntry(chip.history, |old(chip.history)|, addr, head, |payload|)
  {
    ghost var m0, h0, len := chip.mem, chip.history, |payload|;
    var marked, final := Header(Word(head.(invalid := true)), |payload|), Header(Word(head), |payload|);
    EntryTakes(m0, addr, marked, payload);
    hide Splice, Blend, Header, Word, ErasedFrom, Encode;
    status := WriteAndVerify(chip, addr, marked);
    ghost var m1, h1 := chip.mem, chip.history;
    status := WriteAndVerify(chip, addr + ENTRY_HEADER_SIZE, payload);
    ghost var m2, h2 := chip.mem, chip.history;
    FinalTakes(m2, m0, addr, head, payload);
    status := WriteAndVerify(chip, addr, final);
    EntryStates(h0, h1, h2, chip.history, m0, m1, m2, chip.mem, addr, head, payload);
  }

  lemma {:induction false} EntryTakes(m: seq<Byte>, addr: nat, header: seq<Byte>, payload: Data)
    requires |header| == ENTRY_HEADER_SIZE && InChip(m, addr, ENTRY_HEADER_SIZE + |payload|)
    requires ErasedFrom(m, addr, addr + ENTRY_HEADER_SIZE + |payload|)
    ensures Blend(m[addr..addr + ENTRY_HEADER_SIZE], header) == header
    ensures var m1, p := Splice(m, addr, header), addr + ENTRY_HEADER_SIZE;
            Blend(m1[p..p + |payload|], payload) == payload
  {
    var m1, p := Splice(m, addr, header), addr + ENTRY_HEADER_SIZE;
    assert m[addr..p] == Blank(ENTRY_HEADER_SIZE);
    BlankTakes(header);
    SpliceSame(m, addr, header);
    assert forall k :: p <= k < p + |payload| ==> m1[k] == m[k] == ERASED;
    assert m1[p..p + |payload|] == Blank(|payload|);
    BlankTakes(payload);
  }

  lemma {:induction false} FinalTakes(m2: seq<Byte>, m: seq<Byte>, addr: nat, head: Head, payload: Data)
    requires EntryOk(Entry(head, payload)) && IsLive(head) && InChip(m, addr, ENTRY_HEADER_SIZE + |payload|)
    requires m2
             == Splice(Splice(m, addr, Header(Word(head.(invalid := true)), |payload|)), addr + ENTRY_HEADER_SIZE,
                 payload)
    ensures Blend(m2[addr..addr + ENTRY_HEADER_SIZE], Header(Word(head), |payload|)) == Header(Word(head), |payload|)
    ensures Splice(m2, addr, Header(Word(head), |payload|)) == Splice(m, addr, Encode(Entry(head, payload)))
  {
    var marked, final := Header(Word(head.(invalid := true)), |payload|), Header(Word(head), |payload|);
    assert m2[addr..addr + ENTRY_HEADER_SIZE] == marked;
    HeaderTakes(head.(invalid := true), head, |payload|);
    assert Splice(m2, addr, final) == m[..addr] + final + payload + m[addr + ENTRY_HEADER_SIZE + |payload|..];
  }

  /** Putting the three writes of an entry together. */
  lemma {:induction false} EntryStates(h0: seq<seq<Byte>>, h1: seq<seq<Byte>>, h2: seq<seq<Byte>>, h3: seq<seq<Byte>>,
                    m0: seq<Byte>, m1: seq<Byte>, m2: seq<Byte>, m3: seq<Byte>, addr: nat, head: Head, payload: Data)
    requires EntryOk(Entry(head, payload)) && IsLive(head) && InChip(m0, addr, ENTRY_HEADER_SIZE + |payload|)
    requires m1 == Splice(m0, addr, Header(Word(head.(invalid := true)), |payload|)) && h1 == h0 + [m1]
    requires Trail(h2, h1, m1, m2, addr + ENTRY_HEADER_SIZE, addr + ENTRY_HEADER_SIZE + |payload|)
    requires m3 == Splice(m0, addr, Encode(Entry(head, payload))) && h3 == h2 + [m3]
    ensures Trail(h3, h0, m0, m3, addr, addr + ENTRY_HEADER_SIZE + |payload|)
    ensures WritingEntry(h3, |h0|, addr, head, |payload|)
  {
    var f, marked := addr + ENTRY_HEADER_SIZE + |payload|, Header(Word(head.(invalid := true)), |payload|);
    SpliceSame(m0, addr, marked);
    SpliceSame(m0, addr, Encode(Entry(head, payload)));
    forall i | |h0| <= i < |h2|
      ensures SameOutside(h2[i], m0, addr, f) && HeadAt(h2[i], addr, head.(invalid := true), |payload|)
    {
      if i == |h0| {
        assert h2[i] == h2[..|h1|][i] == m1;
      } else {
        var x := h2[i];
        assert SameInside(x, m1, addr, addr + ENTRY_HEADER_SIZE);
        SameSlice(x, m1, addr, addr + ENTRY_HEADER_SIZE);
      }
    }
    assert h3[..|h0|] == h2[..|h1|][..|h0|];
  }

  /** _delete_entry: reads the header at addr and writes it back without the ALIVE flag. */
  method ClearAlive(chip: Chip, addr: nat, ghost head: Head, ghost len: nat) returns (status: Status)
    requires chip.Valid() && head.id <= MAX_KEY_ID && len <= MAX_LEN
    requires HeadAt(chip.mem, addr, head, len)
    modifies chip
    ensures chip.Valid() && status == Ok
    ensures chip.mem == Splice(old(chip.mem), addr, Header(Word(head.(alive := false)), len))
    ensures chip.history == old(chip.history) + [chip.mem]
  {
    var ok, bytes := chip.Read(addr, ENTRY_HEADER_SIZE);
    hide Header, Word, HeadOf, Blend, Splice;
    DecodeWords(bytes, head, len);
    var found := HeadOf(bytes[0] as nat + 0x100 * (bytes[1] as nat));
    var size := bytes[2] as nat + 0x100 * (bytes[3] as nat);
    HeaderTakes(head, head.(alive := false), len);
    status := WriteAndVerify(chip, addr, Header(Word(found.(alive := false)), size));
  }

  lemma {:induction false} DecodeWords(bytes: seq<Byte>, head: Head, len: nat)
    requires head.id < 0x1000 && len <= MAX_LEN && bytes == Header(Word(head), len)
    ensures HeadOf(bytes[0] as nat + 0x100 * (bytes[1] as nat)) == head
    ensures bytes[2] as nat + 0x100 * (bytes[3] as nat) == len
  {
    HeadOfWord(head);
  }
}
