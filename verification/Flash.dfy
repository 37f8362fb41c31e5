/**
 * NOR flash behind the SPI driver (core/spiflash.c).
 *
 * A chip is a sequence of bytes.  Programming can only clear bits, so writing a
 * buffer ANDs it into the cells; erasing a sector sets every bit of it.  The
 * driver splits a request at page boundaries and then into blocks that the SPI
 * controller can transfer; the methods below prove that the splitting is
 * invisible.
 */
module Flash {
  import opened Bytes

  const ERASED: Byte := 0xff
  /** Flash addresses have 24 bits. */
  const MAX_CHIP_SIZE: nat := 0x100_0000
  const SECTOR_SIZE: nat := 4096
  const SPI_WRITE_MAX_SIZE: nat := 64
  const SPI_READ_MAX_SIZE: nat := 60

  /** Bitwise AND of two natural numbers. */
  function And(a: nat, b: nat): (r: nat)
    ensures r <= a && r <= b
  {
    if a == 0 || b == 0 then 0
    else 2 * And(a / 2, b / 2) + if a % 2 == 1 && b % 2 == 1 then 1 else 0
  }

  function Bit(n: nat): (r: nat)
    ensures r > 0
  {
    if n == 0 then 1 else 2 * Bit(n - 1)
  }

  predicate HasBit(x: nat, n: nat) {
    if n == 0 then x % 2 == 1 else HasBit(x / 2, n - 1)
  }

  /** A bit is left exactly if both numbers have it. */
  lemma {:induction false} AndBits(a: nat, b: nat, n: nat)
    ensures HasBit(And(a, b), n) <==> HasBit(a, n) && HasBit(b, n)
  {
    if a == 0 || b == 0 {
      ZeroHasNone(n);
    } else if n > 0 {
      AndBits(a / 2, b / 2, n - 1);
    }
  }

  lemma {:induction false} ZeroHasNone(n: nat)
    ensures !HasBit(0, n)
  {
    if n > 0 {
      ZeroHasNone(n - 1);
    }
  }

  /** ANDing with n ones keeps every number below 2^n. */
  lemma {:induction false} AndOnes(n: nat, x: nat)
    requires x < Bit(n)
    ensures And(Bit(n) - 1, x) == x
  {
    if x != 0 {
      AndOnes(n - 1, x / 2);
    }
  }

  lemma {:induction false} AndSelf(x: nat)
    ensures And(x, x) == x
  {
    if x != 0 {
      AndSelf(x / 2);
    }
  }

  /** Clearing one bit of x and programming the result over x leaves the result. */
  lemma {:induction false} AndCleared(x: nat, n: nat)
    requires HasBit(x, n)
    ensures x >= Bit(n) && And(x, x - Bit(n)) == x - Bit(n)
  {
    if n == 0 {
      AndSelf(x / 2);
    } else {
      AndCleared(x / 2, n - 1);
      var y := x - Bit(n);
      assert y / 2 == x / 2 - Bit(n - 1) && y % 2 == x % 2;
    }
  }

  /** The cells after programming `data` over them. */
  function Blend(cells: seq<Byte>, data: seq<Byte>): (r: seq<Byte>)
    requires |cells| == |data|
    ensures |r| == |cells|
  {
    seq(|cells|, i requires 0 <= i < |cells| => And(cells[i], data[i]))
  }

  predicate InChip(mem: seq<Byte>, addr: nat, size: nat) {
    addr + size <= |mem|
  }

  /** The chip after programming `data` at `addr`. */
  function Program(mem: seq<Byte>, addr: nat, data: seq<Byte>): (r: seq<Byte>)
    requires InChip(mem, addr, |data|)
    ensures |r| == |mem|
  {
    mem[..addr] + Blend(mem[addr..addr + |data|], data) + mem[addr + |data|..]
  }

  function Blank(n: nat): (r: seq<Byte>)
    ensures |r| == n && forall i :: 0 <= i < n ==> r[i] == ERASED
  {
    seq(n, i => ERASED)
  }

  /** The chip after erasing the sector at `addr`. */
  function Erase(mem: seq<Byte>, addr: nat): (r: seq<Byte>)
    requires InChip(mem, addr, SECTOR_SIZE)
    ensures |r| == |mem|
  {
    mem[..addr] + Blank(SECTOR_SIZE) + mem[addr + SECTOR_SIZE..]
  }

  /** Programming two adjoining pieces one after the other is programming them at once. */
  lemma {:induction false} ProgramSplit(mem: seq<Byte>, addr: nat, a: seq<Byte>, b: seq<Byte>)
    requires InChip(mem, addr, |a| + |b|)
    ensures Program(Program(mem, addr, a), addr + |a|, b) == Program(mem, addr, a + b)
  {
    var one := Program(mem, addr, a);
    assert one[addr + |a|..addr + |a| + |b|] == mem[addr + |a|..addr + |a| + |b|];
    assert one[addr + |a| + |b|..] == mem[addr + |a| + |b|..];
    assert one[..addr + |a|] == mem[..addr] + Blend(mem[addr..addr + |a|], a);
    assert Blend(mem[addr..addr + |a + b|], a + b)
        == Blend(mem[addr..addr + |a|], a) + Blend(mem[addr + |a|..addr + |a| + |b|], b);
  }

  /** The same for consecutive slices of one buffer. */
  lemma {:induction false} ProgramExtend(mem: seq<Byte>, addr: nat, data: seq<Byte>, k: nat, size: nat)
    requires InChip(mem, addr, |data|) && k + size <= |data|
    ensures Program(Program(mem, addr, data[..k]), addr + k, data[k..k + size]) == Program(mem, addr, data[..k + size])
  {
    ProgramSplit(mem, addr, data[..k], data[k..k + size]);
    assert data[..k] + data[k..k + size] == data[..k + size];
  }

  lemma {:induction false} ProgramNothing(mem: seq<Byte>, addr: nat)
    requires addr <= |mem|
    ensures Program(mem, addr, []) == mem
  {
  }

  /** addr modulo the page size, by repeated subtraction (see PageOffsetIsMod). */
  function PageOffset(addr: nat, page: nat): (r: nat)
    requires page > 0
    ensures r < page && r <= addr
  {
    if addr < page then addr else PageOffset(addr - page, page)
  }

  /** How many whole pages fit into `size` bytes. */
  function WholePages(size: nat, page: nat): nat
    requires page > 0
  {
    if size < page then 0 else 1 + WholePages(size - page, page)
  }

  class Chip {
    const pageSize: nat
    var mem: seq<Byte>
    /** Every state the chip has been in, one per completed driver write or erase. */
    ghost var history: seq<seq<Byte>>

    ghost predicate Valid()
      reads this
    {
      pageSize > 0 && |mem| <= MAX_CHIP_SIZE
    }

    constructor (pageSize: nat, mem: seq<Byte>)
      requires pageSize > 0 && |mem| <= MAX_CHIP_SIZE
      ensures Valid() && this.pageSize == pageSize && this.mem == mem && history == []
    {
      this.pageSize := pageSize;
      this.mem := mem;
      history := [];
    }

    /**
     * One page-program command.  The controller moves at most 64 bytes and the
     * device wraps inside a page, so a block must not cross a page boundary.
     */
    method WriteBlock(addr: nat, data: seq<Byte>)
      requires Valid()
      requires InChip(mem, addr, |data|)
      requires 0 < |data| <= SPI_WRITE_MAX_SIZE
      requires PageOffset(addr, pageSize) + |data| <= pageSize
      modifies this`mem
      ensures mem == Program(old(mem), addr, data)
    {
      mem := Program(mem, addr, data);
    }

    /** Writes the block of `data` that starts at index `done`, the part before it being written. */
    method WriteNext(ghost start: seq<Byte>, addr: nat, data: seq<Byte>, done: nat, size: nat)
      requires Valid()
      requires |mem| == |start| && InChip(start, addr, |data|)
      requires 0 < size <= SPI_WRITE_MAX_SIZE && done + size <= |data|
      requires PageOffset(addr, pageSize) + |data| <= pageSize
      requires mem == Program(start, addr, data[..done])
      modifies this`mem
      ensures mem == Program(start, addr, data[..done + size])
    {
      InPage(addr, done, pageSize);
      WriteBlock(addr + done, data[done..done + size]);
      ProgramExtend(start, addr, data, done, size);
    }

    /** Writes part of one page in 64-byte blocks; refuses data that crosses the page. */
    method WritePage(addr: nat, data: seq<Byte>) returns (ok: bool)
      requires Valid()
      requires InChip(mem, addr, |data|)
      modifies this`mem
      ensures ok == (|data| + PageOffset(addr, pageSize) <= pageSize)
      ensures mem == if ok then Program(old(mem), addr, data) else old(mem)
    {
      if pageSize < |data| + PageOffset(addr, pageSize) {
        return false;
      }
      ProgramNothing(mem, addr);
      if |data| < 1 {
        assert data == [];
        return true;
      }
      var done := 0;
      while |data| - done >= SPI_WRITE_MAX_SIZE
        invariant 0 <= done <= |data|
        invariant done < |data|
        invariant |mem| == |old(mem)|
        invariant mem == Program(old(mem), addr, data[..done])
      {
        WriteNext(old(mem), addr, data, done, SPI_WRITE_MAX_SIZE);
        done := done + SPI_WRITE_MAX_SIZE;
        if |data| - done < 1 {
          assert data[..done] == data;
          return true;
        }
      }
      WriteNext(old(mem), addr, data, done, |data| - done);
      assert data[..|data|] == data;
      return true;
    }

    /** Writes at most a page of `data` from index `offset`, which lies on a page boundary. */
    method WriteRest(ghost start: seq<Byte>, addr: nat, data: seq<Byte>, offset: nat, size: nat)
      requires Valid()
      requires |mem| == |start| && InChip(start, addr, |data|)
      requires size <= pageSize && offset + size <= |data|
      requires PageOffset(addr + offset, pageSize) == 0
      requires mem == Program(start, addr, data[..offset])
      modifies this`mem
      ensures mem == Program(start, addr, data[..offset + size])
    {
      var sent := WritePage(addr + offset, data[offset..offset + size]);
      assert sent;
      ProgramExtend(start, addr, data, offset, size);
    }

    /** Splits a request at page boundaries and writes the pieces. */
    method WritePages(addr: nat, data: seq<Byte>) returns (ok: bool)
      requires Valid()
      modifies this`mem
      ensures ok == InChip(old(mem), addr, |data|)
      ensures mem == if ok then Program(old(mem), addr, data) else old(mem)
    {
      hide Program;
      if |mem| < addr + |data| {
        return false;
      }
      var first := pageSize - PageOffset(addr, pageSize);
      if |data| < first {
        ok := WritePage(addr, data);
      } else {
        ok := WritePage(addr, data[..first]);
        var offset := first;
        var pages := WholePages(|data| - offset, pageSize);
        NextPage(addr, pageSize);
        for i := 0 to pages
          invariant |mem| == |old(mem)| && 0 <= offset <= |data|
          invariant WholePages(|data| - offset, pageSize) == pages - i
          invariant PageOffset(addr + offset, pageSize) == 0
          invariant mem == Program(old(mem), addr, data[..offset])
        {
          WriteRest(old(mem), addr, data, offset, pageSize);
          offset := offset + pageSize;
        }
        WriteRest(old(mem), addr, data, offset, |data| - offset);
        assert data[..|data|] == data;
      }
    }

    /** spiflash_write: one driver write, a single step as far as power cuts go. */
    method Write(addr: nat, data: seq<Byte>) returns (ok: bool)
      requires Valid()
      modifies this
      ensures Valid()
      ensures ok == InChip(old(mem), addr, |data|)
      ensures mem == if ok then Program(old(mem), addr, data) else old(mem)
      ensures history == old(history) + [mem]
    {
      ok := WritePages(addr, data);
      history := history + [mem];
    }

    /** spiflash_read: reads 60 bytes at a time. */
    method Read(addr: nat, size: nat) returns (ok: bool, data: seq<Byte>)
      ensures ok == (size == 0 || InChip(mem, addr, size))
      ensures data == if ok && size > 0 then mem[addr..addr + size] else []
    {
      data := [];
      if size < 1 {
        return true, data;
      }
      if addr + size > |mem| {
        return false, data;
      }
      var left := size;
      while left >= SPI_READ_MAX_SIZE
        invariant 0 <= left <= size
        invariant data == mem[addr..addr + size - left]
      {
        data := data + mem[addr + size - left..addr + size - left + SPI_READ_MAX_SIZE];
        left := left - SPI_READ_MAX_SIZE;
      }
      if left > 0 {
        data := data + mem[addr + size - left..addr + size];
      }
      ok := true;
    }

    /** spiflash_erase_sector: refuses addresses off the chip or not on a 4096-byte boundary. */
    method EraseSector(addr: nat) returns (ok: bool)
      requires Valid()
      modifies this
      ensures Valid()
      ensures ok == (InChip(old(mem), addr, SECTOR_SIZE) && addr % 0x1000 == 0)
      ensures mem == if ok then Erase(old(mem), addr) else old(mem)
      ensures history == if ok then old(history) + [mem] else old(history)
    {
      if addr + SECTOR_SIZE > |mem| {
        return false;
      }
      if addr % 0x1000 != 0 {
        return false;
      }
      mem := Erase(mem, addr);
      history := history + [mem];
      ok := true;
    }
  }

  /** Moving inside a page by less than the room left stays in the page. */
  lemma {:induction false} InPage(addr: nat, step: nat, page: nat)
    requires page > 0 && PageOffset(addr, page) + step < page
    ensures PageOffset(addr + step, page) == PageOffset(addr, page) + step
  {
    if addr >= page {
      InPage(addr - page, step, page);
    }
  }

  /** The room left in a page leads to a page boundary. */
  lemma {:induction false} NextPage(addr: nat, page: nat)
    requires page > 0
    ensures PageOffset(addr + (page - PageOffset(addr, page)), page) == 0
  {
    if addr >= page {
      NextPage(addr - page, page);
    }
  }

  lemma {:induction false} PageOffsetIsMod(addr: nat, page: nat)
    requires page > 0
    ensures PageOffset(addr, page) == addr % page
  {
    if addr >= page {
      PageOffsetIsMod(addr - page, page);
      ModStep(addr, page);
    }
  }

  lemma {:induction false} ModStep(x: nat, d: nat)
    requires 0 < d <= x
    ensures (x - d) % d == x % d
  {
    var e := x / d - 1 - (x - d) / d;
    assert d * e == (x - d) % d - x % d;
    Multiple(d, e);
  }

  lemma {:induction false} Multiple(d: nat, e: int)
    ensures e == 0 || d * e >= d || d * e <= -(d as int)
  {
    if e > 0 {
      NonNegative(d, e - 1);
    } else if e < 0 {
      NonNegative(d, -e - 1);
    }
  }

  lemma {:induction false} NonNegative(d: nat, f: nat)
    ensures d * f >= 0
  {
  }
}
