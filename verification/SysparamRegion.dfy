/**
 * The two flash regions of a sysparam area, as bytes: their headers, how entries
 * are put into and marked in a region, and which parameters a boot from given
 * bytes would show.
 */
module SysparamRegion {
  import opened Bytes
  import opened Flash
  import opened SysparamLog

  // ------------------------------------------------------------------- bytes

  function Splice(mem: seq<Byte>, addr: nat, data: seq<Byte>): (r: seq<Byte>)
    requires InChip(mem, addr, |data|)
    ensures |r| == |mem|
  {
    mem[..addr] + data + mem[addr + |data|..]
  }

  /** The two memories differ at most in [from, to). */
  ghost predicate SameOutside(a: seq<Byte>, b: seq<Byte>, from: nat, to: nat) {
    |a| == |b| && forall k :: 0 <= k < |a| && !(from <= k < to) ==> a[k] == b[k]
  }

  /** The two memories agree in [from, to). */
  ghost predicate SameInside(a: seq<Byte>, b: seq<Byte>, from: nat, to: nat) {
    |a| == |b| && forall k :: from <= k < to && k < |a| ==> a[k] == b[k]
  }

  lemma {:induction false} SpliceSame(mem: seq<Byte>, addr: nat, data: seq<Byte>)
    requires InChip(mem, addr, |data|)
    ensures SameOutside(Splice(mem, addr, data), mem, addr, addr + |data|)
    ensures Splice(mem, addr, data)[addr..addr + |data|] == data
  {
  }

  lemma {:induction false} SameSlice(a: seq<Byte>, b: seq<Byte>, from: nat, to: nat)
    requires SameInside(a, b, from, to) && from <= to <= |a|
    ensures a[from..to] == b[from..to]
  {
  }

  /** A region whose bytes are untouched holds the same log. */
  lemma {:induction false} ShapeSame(a: seq<Byte>, b: seq<Byte>, base: nat, end: nat, log: seq<Entry>)
    requires Shape(a, base, end, log) && SameInside(a, b, base + REGION_HEADER_SIZE, end)
    ensures Shape(b, base, end, log)
  {
    SameSlice(a, b, base + REGION_HEADER_SIZE, EndOf(base, log));
  }

  /** Bytes that hold the encoding of one more entry at the end of the log extend the log. */
  lemma {:induction false} ShapeAppend(a: seq<Byte>, b: seq<Byte>, base: nat, end: nat, log: seq<Entry>, e: Entry)
    requires Shape(a, base, end, log) && EntryOk(e) && EndOf(base, log) + EntrySize(e) <= end
    requires SameOutside(a, b, EndOf(base, log), EndOf(base, log) + EntrySize(e))
    requires b[EndOf(base, log)..EndOf(base, log) + EntrySize(e)] == Encode(e)
    ensures Shape(b, base, end, log + [e])
  {
    hide Encode, EncodeLog, Size;
    var s, m, f := base + REGION_HEADER_SIZE, EndOf(base, log), EndOf(base, log) + EntrySize(e);
    EncodeAppend(log, e);
    SizeAppend(log, e);
    SameSlice(a, b, s, m);
    assert b[s..f] == b[s..m] + b[m..f];
  }

  lemma {:induction false} LastApart<T>(a: seq<T>, b: seq<T>)
    requires b != []
    ensures a + b == (a + b[..|b| - 1]) + [b[|b| - 1]] && b == b[..|b| - 1] + [b[|b| - 1]]
  {
  }

  lemma {:induction false} Associative<T>(a: seq<T>, b: seq<T>, c: seq<T>)
    ensures (a + b) + c == a + (b + c)
  {
  }

  lemma {:induction false} EncodeConcat(a: seq<Entry>, b: seq<Entry>)
    requires LogOk(a) && LogOk(b)
    ensures LogOk(a + b) && EncodeLog(a + b) == EncodeLog(a) + EncodeLog(b)
  {
    if b == [] {
      assert a + b == a;
    } else {
      var rest, last := b[..|b| - 1], b[|b| - 1];
      EncodeConcat(a, rest);
      LastApart(a, b);
      EncodeAppend(a + rest, last);
      Associative(EncodeLog(a), EncodeLog(rest), Encode(last));
    }
  }

  lemma {:induction false} EncodeAround(log: seq<Entry>, n: nat, e: Entry)
    requires LogOk(log) && n < |log| && EntryOk(e)
    ensures LogOk(log[n := e])
    ensures EncodeLog(log[n := e]) == EncodeLog(log[..n]) + Encode(e) + EncodeLog(log[n + 1..])
  {
    assert log[n := e] == (log[..n] + [e]) + log[n + 1..];
    EncodeAppend(log[..n], e);
    EncodeConcat(log[..n] + [e], log[n + 1..]);
  }

  /** Rewriting the header word of entry n in the encoded log. */
  lemma {:induction false} EncodeRehead(log: seq<Entry>, n: nat, h: Head)
    requires LogOk(log) && n < |log| && h.id <= MAX_KEY_ID
    ensures LogOk(log[n := Entry(h, log[n].data)])
    ensures Size(log[n := Entry(h, log[n].data)]) == Size(log)
    ensures Size(log[..n]) + ENTRY_HEADER_SIZE <= Size(log) && EntryOk(log[n])
    ensures EncodeLog(log[n := Entry(h, log[n].data)])
         == Splice(EncodeLog(log), Size(log[..n]), Header(Word(h), |log[n].data|))
  {
    assert EntryOk(log[n]) && log == log[n := log[n]];
    EncodeAround(log, n, log[n]);
    EncodeAround(log, n, Entry(h, log[n].data));
    SpliceMiddle(EncodeLog(log[..n]), Header(Word(log[n].head), |log[n].data|), Header(Word(h), |log[n].data|),
                 log[n].data, EncodeLog(log[n + 1..]));
  }

  lemma {:induction false} SpliceMiddle(a: seq<Byte>, x: seq<Byte>, y: seq<Byte>, b: seq<Byte>, c: seq<Byte>)
    requires |x| == |y|
    ensures Splice(a + (x + b) + c, |a|, y) == a + (y + b) + c
  {
  }

  lemma {:induction false} EntryInside(a: seq<Byte>, base: nat, end: nat, log: seq<Entry>, n: nat)
    requires Shape(a, base, end, log) && n < |log|
    ensures AddrOf(base, log, n) + EntrySize(log[n]) <= EndOf(base, log) <= end <= |a| && EntryOk(log[n])
  {
    EntryBounds(log, n);
  }

  /** Rewriting the header of entry n in the bytes rewrites it in the log. */
  lemma {:induction false} ShapeRehead(a: seq<Byte>, b: seq<Byte>, base: nat, end: nat, log: seq<Entry>, n: nat,
                                       h: Head)
    requires Shape(a, base, end, log) && n < |log| && h.id <= MAX_KEY_ID
    requires AddrOf(base, log, n) + ENTRY_HEADER_SIZE <= end && EntryOk(log[n])
    requires b == Splice(a, AddrOf(base, log, n), Header(Word(h), |log[n].data|))
    ensures Shape(b, base, end, log[n := Entry(h, log[n].data)])
  {
    EncodeRehead(log, n, h);
    EntryInside(a, base, end, log, n);
    hide Size, EncodeLog, LogOk, Word, Header;
    SpliceInner(a, base + REGION_HEADER_SIZE, EndOf(base, log), Size(log[..n]), Header(Word(h), |log[n].data|));
  }

  lemma {:induction false} SpliceInner(a: seq<Byte>, s: nat, m: nat, p: nat, hd: seq<Byte>)
    requires s <= m <= |a| && p + |hd| <= m - s
    ensures Splice(a, s + p, hd)[s..m] == Splice(a[s..m], p, hd)
  {
  }

  // ------------------------------------------------------------- erasing bits

  /** Programming a header over itself with the INVALID or ALIVE flag cleared stores that header. */
  lemma {:induction false} HeaderTakes(h: Head, h': Head, len: nat)
    requires h.id < 0x1000 && len <= 0xffff
    requires h' == h || h' == h.(alive := false) || h' == h.(invalid := false)
    ensures Blend(Header(Word(h), len), Header(Word(h'), len)) == Header(Word(h'), len)
  {
    var from, to := Header(Word(h), len), Header(Word(h'), len);
    AndSelf(from[0]);
    AndSelf(from[2]);
    AndSelf(from[3]);
    HighByteClear(h, h');
    assert Blend(from, to) == to;
  }

  lemma {:induction false} HighByteClear(h: Head, h': Head)
    requires h.id < 0x1000
    requires h' == h || h' == h.(alive := false) || h' == h.(invalid := false)
    ensures Word(h) % 0x100 == Word(h') % 0x100
    ensures And(Word(h) / 0x100, Word(h') / 0x100) == Word(h') / 0x100
  {
    WordBytes(h);
    WordBytes(h');
    var x := HighByte(h);
    if h' == h {
      AndSelf(x);
    } else if h.alive && h' == h.(alive := false) {
      HasTopBit(x);
      AndCleared(x, 7);
    } else {
      HasSecondBit(x);
      AndCleared(x, 6);
    }
  }

  function HighByte(h: Head): nat
  {
    h.id / 0x100 + (if h.alive then 0x80 else 0) + (if h.invalid then 0x40 else 0)
                 + (if h.value then 0x20 else 0) + (if h.binary then 0x10 else 0)
  }

  lemma {:induction false} WordBytes(h: Head)
    requires h.id < 0x1000
    ensures Word(h) / 0x100 == HighByte(h) && Word(h) % 0x100 == h.id % 0x100 && HighByte(h) < 0x100
  {
  }

  lemma {:induction false} HasTopBit(x: nat)
    requires 0x80 <= x < 0x100
    ensures HasBit(x, 7) && Bit(7) == 0x80
  {
    var y := x / 2 / 2 / 2 / 2;
    assert 8 <= y < 16;
    assert y / 2 / 2 / 2 == 1;
    assert HasBit(y, 3);
    assert HasBit(x, 7) == HasBit(x / 2, 6) == HasBit(x / 2 / 2, 5) == HasBit(x / 2 / 2 / 2, 4) == HasBit(y, 3);
    assert Bit(3) == 8;
    assert Bit(5) == 4 * Bit(3);
    assert Bit(7) == 4 * Bit(5);
  }

  lemma {:induction false} HasSecondBit(x: nat)
    requires x < 0x100 && x / 0x40 % 2 == 1
    ensures HasBit(x, 6) && Bit(6) == 0x40
  {
    var y := x / 2 / 2 / 2;
    assert y == x / 8;
    assert y / 2 / 2 / 2 == x / 0x40;
    assert HasBit(y / 2 / 2, 1);
    assert HasBit(x, 6) == HasBit(x / 2, 5) == HasBit(x / 2 / 2, 4) == HasBit(y, 3);
    assert Bit(2) == 4;
    assert Bit(4) == 4 * Bit(2);
    assert Bit(6) == 4 * Bit(4);
  }
}
