/**
 * The log that core/sysparam.c keeps in a flash region, without any state.
 *
 * A region holds an 8-byte header and then entries, each a 4-byte header
 * (a word of flags and id, and a length) followed by a payload.  A live key
 * entry names a parameter and gives it an id; live value entries carry the id
 * of their key.  Reading the log from left to right yields a table with one row
 * per key; the value of a key is the first live value of its row.
 */
module SysparamLog {
  import opened Bytes
  import opened Flash

  const REGION_HEADER_SIZE: nat := 8
  const ENTRY_HEADER_SIZE: nat := 4
  const MAX_LEN: nat := 0xffff
  const MAX_KEY_ID: nat := 0x0ffe
  const ID_END: nat := 0xfff
  const ID_ANY: nat := 0x1000
  const FLAG_ALIVE: nat := 0x8000
  const FLAG_INVALID: nat := 0x4000
  const FLAG_VALUE: nat := 0x2000
  const FLAG_BINARY: nat := 0x1000

  type Data = seq<Byte>

  /** The flags and id packed into the first word of an entry header. */
  datatype Head = Head(alive: bool, invalid: bool, value: bool, binary: bool, id: nat)

  datatype Entry = Entry(head: Head, data: Data)

  predicate IsLive(h: Head) { h.alive && !h.invalid }
  predicate IsLiveKey(h: Head) { IsLive(h) && !h.value }
  predicate IsLiveValue(h: Head) { IsLive(h) && h.value }

  function Word(h: Head): (w: nat)
    requires h.id < 0x1000
    ensures w < 0x10000
  {
    h.id + (if h.alive then FLAG_ALIVE else 0) + (if h.invalid then FLAG_INVALID else 0)
         + (if h.value then FLAG_VALUE else 0) + (if h.binary then FLAG_BINARY else 0)
  }

  function HeadOf(w: nat): Head {
    Head(w / FLAG_ALIVE % 2 == 1, w / FLAG_INVALID % 2 == 1, w / FLAG_VALUE % 2 == 1, w / FLAG_BINARY % 2 == 1,
        w % 0x1000)
  }

  /** Packing and unpacking a header word are inverse. */
  lemma {:induction false} HeadOfWord(h: Head)
    requires h.id < 0x1000
    ensures HeadOf(Word(h)) == h
    ensures h.id <= MAX_KEY_ID ==> Word(h) != 0xffff
  {
  }

  /** An entry the format can hold; id 0xfff is left to the end-of-log mark 0xffff. */
  predicate EntryOk(e: Entry) {
    e.head.id <= MAX_KEY_ID && |e.data| <= MAX_LEN
  }

  predicate LogOk(log: seq<Entry>) {
    forall i :: 0 <= i < |log| ==> EntryOk(log[i])
  }

  function EntrySize(e: Entry): nat {
    ENTRY_HEADER_SIZE + |e.data|
  }

  function Size(log: seq<Entry>): nat {
    if log == [] then 0 else Size(log[..|log| - 1]) + EntrySize(log[|log| - 1])
  }

  // ---------------------------------------------------------------- encoding

  function Header(word: nat, len: nat): (r: seq<Byte>)
    requires word <= 0xffff && len <= 0xffff
    ensures |r| == ENTRY_HEADER_SIZE
  {
    [word % 0x100, word / 0x100, len % 0x100, len / 0x100]
  }

  function Encode(e: Entry): (r: seq<Byte>)
    requires EntryOk(e)
    ensures |r| == EntrySize(e)
  {
    Header(Word(e.head), |e.data|) + e.data
  }

  lemma {:induction false} FourBitsUp(w: nat, n: nat)
    ensures HasBit(w, n + 4) <==> HasBit(w / 0x10, n)
  {
    assert HasBit(w, n + 4) == HasBit(w / 2, n + 3) == HasBit(w / 2 / 2, n + 2);
    assert HasBit(w / 2 / 2, n + 2) == HasBit(w / 2 / 2 / 2, n + 1) == HasBit(w / 2 / 2 / 2 / 2, n);
    assert w / 2 / 2 / 2 / 2 == w / 0x10;
  }

  /** The bits above the lowest twelve. */
  lemma {:induction false} TwelveBitsUp(w: nat, n: nat)
    ensures HasBit(w, n + 12) <==> HasBit(w / 0x1000, n)
  {
    FourBitsUp(w, n + 8);
    FourBitsUp(w / 0x10, n + 4);
    FourBitsUp(w / 0x10 / 0x10, n);
    assert w / 0x10 / 0x10 / 0x10 == w / 0x1000;
  }

  /**
   * An entry on flash: two little-endian 16-bit words, the first with alive, invalid, value and
   * binary as bits 15, 14, 13 and 12 and the id below them, the second the length; then the data.
   */
  lemma {:induction false} EntryFormat(e: Entry)
    requires EntryOk(e)
    ensures var r := Encode(e);
            var word: nat := r[0] as nat + 0x100 * (r[1] as nat);
            && (HasBit(word, 15) <==> e.head.alive) && (HasBit(word, 14) <==> e.head.invalid)
            && (HasBit(word, 13) <==> e.head.value) && (HasBit(word, 12) <==> e.head.binary)
            && word % 0x1000 == e.head.id && r[2] as nat + 0x100 * (r[3] as nat) == |e.data| && r[4..] == e.data
  {
    var w := Word(e.head);
    HeadOfWord(e.head);
    WordWeights(w);
    assert Encode(e) == Header(w, |e.data|) + e.data;
  }

  lemma {:induction false} WordWeights(w: nat)
    ensures var h := HeadOf(w);
            && (HasBit(w, 15) <==> h.alive) && (HasBit(w, 14) <==> h.invalid) && (HasBit(w, 13) <==> h.value)
            && (HasBit(w, 12) <==> h.binary)
  {
    TwelveBitsUp(w, 0);
    TwelveBitsUp(w, 1);
    TwelveBitsUp(w, 2);
    TwelveBitsUp(w, 3);
    var x := w / 0x1000;
    assert HasBit(x, 1) == HasBit(x / 2, 0) && HasBit(x, 2) == HasBit(x / 2 / 2, 0);
    assert HasBit(x, 3) == HasBit(x / 2, 2) == HasBit(x / 2 / 2 / 2, 0);
    assert w / 0x2000 == x / 2 && w / 0x4000 == x / 2 / 2 && w / 0x8000 == x / 2 / 2 / 2;
  }

  function EncodeLog(log: seq<Entry>): (r: seq<Byte>)
    requires LogOk(log)
    ensures |r| == Size(log)
  {
    if log == [] then [] else EncodeLog(log[..|log| - 1]) + Encode(log[|log| - 1])
  }

  lemma {:induction false} SizeAppend(log: seq<Entry>, e: Entry)
    ensures Size(log + [e]) == Size(log) + EntrySize(e)
  {
    assert (log + [e])[..|log|] == log;
  }

  lemma {:induction false} EncodeAppend(log: seq<Entry>, e: Entry)
    requires LogOk(log) && EntryOk(e)
    ensures LogOk(log + [e])
    ensures EncodeLog(log + [e]) == EncodeLog(log) + Encode(e)
  {
    assert (log + [e])[..|log|] == log;
  }

  /** Where entry n starts and ends inside the encoded log. */
  lemma {:induction false} EntryBounds(log: seq<Entry>, n: nat)
    requires n < |log|
    ensures Size(log[..n + 1]) == Size(log[..n]) + EntrySize(log[n])
    ensures Size(log[..n + 1]) <= Size(log)
  {
    assert log[..n + 1][..n] == log[..n];
    SizeMonotone(log, n + 1);
  }

  lemma {:induction false} SizeMonotone(log: seq<Entry>, n: nat)
    requires n <= |log|
    ensures Size(log[..n]) <= Size(log)
  {
    if n == |log| {
      assert log[..n] == log;
    } else {
      var init := log[..|log| - 1];
      assert log[..n] == init[..n];
      SizeMonotone(init, n);
    }
  }

  /** Entry n of the log is found at its offset in the bytes. */
  lemma {:induction false} EncodedEntry(log: seq<Entry>, n: nat)
    requires LogOk(log) && n < |log|
    ensures Size(log[..n]) + EntrySize(log[n]) <= Size(log)
    ensures EncodeLog(log)[Size(log[..n])..Size(log[..n]) + EntrySize(log[n])] == Encode(log[n])
  {
    EntryBounds(log, n);
    var init := log[..|log| - 1];
    if n == |log| - 1 {
      assert log[..n] == init;
    } else {
      assert log[..n] == init[..n];
      EncodedEntry(init, n);
    }
  }

  // ------------------------------------------------------ what a region holds

  /** The bytes of the region [base, end) are its header, the log, and erased space. */
  ghost predicate Shape(mem: seq<Byte>, base: nat, end: nat, log: seq<Entry>) {
    && LogOk(log)
    && base + REGION_HEADER_SIZE + Size(log) <= end <= |mem|
    && mem[base + REGION_HEADER_SIZE..base + REGION_HEADER_SIZE + Size(log)] == EncodeLog(log)
    && ErasedFrom(mem, base + REGION_HEADER_SIZE + Size(log), end)
  }

  ghost predicate ErasedFrom(mem: seq<Byte>, from: nat, to: nat)
    requires to <= |mem|
  {
    forall k :: from <= k < to ==> mem[k] == ERASED
  }

  function AddrOf(base: nat, log: seq<Entry>, n: nat): nat
    requires n <= |log|
  {
    base + REGION_HEADER_SIZE + Size(log[..n])
  }

  function EndOf(base: nat, log: seq<Entry>): nat {
    base + REGION_HEADER_SIZE + Size(log)
  }

  /** A byte of the region; reads past the region end see erased flash. */
  function ByteAt(mem: seq<Byte>, addr: nat, end: nat): Byte
    requires end <= |mem|
  {
    if addr < end then mem[addr] else ERASED
  }

  function WordAt(mem: seq<Byte>, addr: nat, end: nat): nat
    requires end <= |mem|
  {
    ByteAt(mem, addr, end) + 0x100 * ByteAt(mem, addr + 1, end)
  }

  lemma {:induction false} SliceOfSlice<T>(s: seq<T>, a: nat, b: nat, i: nat, j: nat)
    requires a <= b <= |s| && i <= j <= b - a
    ensures s[a..b][i..j] == s[a + i..a + j]
  {
    var x, y := s[a..b][i..j], s[a + i..a + j];
    forall k | 0 <= k < |x|
      ensures x[k] == y[k]
    {
      assert x[k] == s[a..b][i + k];
    }
  }

  /** The bytes at the address of entry n are its encoding. */
  lemma {:induction false} StoredEntry(mem: seq<Byte>, base: nat, end: nat, log: seq<Entry>, n: nat)
    requires Shape(mem, base, end, log) && n < |log|
    ensures AddrOf(base, log, n) + EntrySize(log[n]) <= EndOf(base, log) <= end
    ensures mem[AddrOf(base, log, n)..AddrOf(base, log, n) + EntrySize(log[n])] == Encode(log[n])
  {
    EncodedEntry(log, n);
    var s := Size(log[..n]);
    SliceOfSlice(mem, base + REGION_HEADER_SIZE, EndOf(base, log), s, s + EntrySize(log[n]));
  }

  lemma {:induction false} DecodeBytes(mem: seq<Byte>, a: nat, end: nat, e: Entry)
    requires EntryOk(e) && a + EntrySize(e) <= end <= |mem| && mem[a..a + EntrySize(e)] == Encode(e)
    ensures WordAt(mem, a, end) == Word(e.head) && WordAt(mem, a + 2, end) == |e.data|
    ensures mem[a + ENTRY_HEADER_SIZE..a + EntrySize(e)] == e.data
  {
    SliceOfSlice(mem, a, a + EntrySize(e), ENTRY_HEADER_SIZE, EntrySize(e));
    assert Encode(e)[ENTRY_HEADER_SIZE..] == e.data;
    assert forall k :: 0 <= k < ENTRY_HEADER_SIZE ==>
           mem[a + k] == mem[a..a + EntrySize(e)][k] == Header(Word(e.head), |e.data|)[k];
  }

  /** Decoding entry n of a region gives back its word, its length and its payload. */
  lemma {:induction false} DecodeHeader(mem: seq<Byte>, base: nat, end: nat, log: seq<Entry>, n: nat)
    requires Shape(mem, base, end, log) && n < |log|
    ensures AddrOf(base, log, n) + EntrySize(log[n]) <= EndOf(base, log) <= end <= |mem|
    ensures WordAt(mem, AddrOf(base, log, n), end) == Word(log[n].head)
    ensures WordAt(mem, AddrOf(base, log, n) + 2, end) == |log[n].data|
    ensures mem[AddrOf(base, log, n) + ENTRY_HEADER_SIZE..AddrOf(base, log, n) + EntrySize(log[n])] == log[n].data
  {
    StoredEntry(mem, base, end, log, n);
    assert EntryOk(log[n]);
    DecodeBytes(mem, AddrOf(base, log, n), end, log[n]);
  }

  // ---------------------------------------------------------------- scanning

  datatype Status = Ok | NotFound | ErrNoInit | ErrBadValue | ErrFull | ErrIo | ErrCorrupt

  /** struct sysparam_context: the entry under the cursor and what the scan has counted. */
  datatype Context = Context(addr: nat, head: Head, len: nat, unusedKeys: int, compactable: nat, maxKeyId: nat)

  datatype Found = Found(status: Status, ctx: Context, truncated: bool)

  predicate Matches(h: Head, id: nat, findValue: bool) {
    IsLive(h) && h.value == findValue && (h.id == id || id == ID_ANY)
  }

  const NO_HEAD := Head(false, false, false, false, 0)

  /** Counts the entry whose header was just loaded. */
  function Note(ctx: Context): Context {
    if IsLiveKey(ctx.head) then ctx.(maxKeyId := ctx.head.id, unusedKeys := ctx.unusedKeys + 1)
    else if IsLive(ctx.head) then ctx.(unusedKeys := ctx.unusedKeys - 1)
    else ctx.(compactable := ctx.compactable + ENTRY_HEADER_SIZE + ctx.len)
  }

  function Stop(ctx: Context, id: nat, truncated: bool): Found {
    if id == ID_END then Found(Ok, ctx, truncated) else Found(NotFound, ctx.(head := NO_HEAD, len := 0), truncated)
  }

  datatype Step = Halt(found: Found) | Go(ctx: Context)

  /** One round of the loop of _find_entry. */
  function FindOnce(mem: seq<Byte>, base: nat, end: nat, ctx: Context, id: nat, findValue: bool): (s: Step)
    requires base + REGION_HEADER_SIZE <= end <= |mem|
    requires base <= ctx.addr <= end
    ensures s.Go? ==> ctx.addr < s.ctx.addr <= end
  {
    if ctx.addr != base && ctx.addr + ENTRY_HEADER_SIZE + ctx.len > end then
      Halt(Stop(ctx, id, true))
    else
      var addr := if ctx.addr == base then base + REGION_HEADER_SIZE else ctx.addr + ENTRY_HEADER_SIZE + ctx.len;
      if ctx.addr != base && addr == end then
        Halt(Stop(ctx.(addr := addr), id, false))
      else
        var word := WordAt(mem, addr, end);
        var next := ctx.(addr := addr, head := HeadOf(word), len := WordAt(mem, addr + 2, end));
        if word == 0xffff then Halt(Stop(next, id, false))
        else if Matches(next.head, id, findValue) then Halt(Found(Ok, Note(next), false))
        else Go(Note(next))
  }

  /** _find_entry, on any bytes: scan on from ctx to a matching entry or the end. */
  function Find(mem: seq<Byte>, base: nat, end: nat, ctx: Context, id: nat, findValue: bool): Found
    requires base + REGION_HEADER_SIZE <= end <= |mem|
    requires base <= ctx.addr <= end
    decreases end - ctx.addr
  {
    match FindOnce(mem, base, end, ctx, id, findValue)
    case Halt(found) => found
    case Go(next) => Find(mem, base, end, next, id, findValue)
  }

  /** `step` is the next round of a scan that ends with `goal`. */
  ghost predicate Leads(mem: seq<Byte>, base: nat, end: nat, ctx: Context, id: nat, findValue: bool, step: Step,
                        goal: Found) {
    && base + REGION_HEADER_SIZE <= end <= |mem| && base <= ctx.addr <= end
    && step == FindOnce(mem, base, end, ctx, id, findValue)
    && goal == Find(mem, base, end, ctx, id, findValue)
  }

  lemma {:induction false} LeadsFrom(mem: seq<Byte>, base: nat, end: nat, ctx: Context, id: nat,
                                     findValue: bool) returns (goal: Found)
    requires base + REGION_HEADER_SIZE <= end <= |mem| && base <= ctx.addr <= end
    ensures goal == Find(mem, base, end, ctx, id, findValue)
    ensures Leads(mem, base, end, ctx, id, findValue, FindOnce(mem, base, end, ctx, id, findValue), goal)
  {
    goal := Find(mem, base, end, ctx, id, findValue);
  }

  lemma {:induction false} LeadsOn(mem: seq<Byte>, base: nat, end: nat, ctx: Context, id: nat, findValue: bool,
                                   step: Step, goal: Found)
    requires Leads(mem, base, end, ctx, id, findValue, step, goal)
    ensures base <= ctx.addr <= end
    ensures step.Halt? ==> step.found == goal
    ensures step.Go? ==> ctx.addr < step.ctx.addr <= end
    ensures step.Go? ==>
              Leads(mem, base, end, step.ctx, id, findValue, FindOnce(mem, base, end, step.ctx, id, findValue), goal)
  {
  }

  function Start(base: nat): Context {
    Context(base, NO_HEAD, 0, 0, 0, 0)
  }

  /** The cursor stands on entry i, or before the first entry when i is -1. */
  predicate On(ctx: Context, base: nat, log: seq<Entry>, i: int)
    requires -1 <= i < |log|
  {
    if i == -1 then ctx.addr == base
    else ctx.addr == AddrOf(base, log, i) && ctx.head == log[i].head && ctx.len == |log[i].data|
  }

  /** Loads entry n and counts it. */
  function Load(base: nat, log: seq<Entry>, ctx: Context, n: nat): Context
    requires n < |log|
  {
    Note(ctx.(addr := AddrOf(base, log, n), head := log[n].head, len := |log[n].data|))
  }

  /** Loads entries n up to, not including, m. */
  function Tally(base: nat, log: seq<Entry>, ctx: Context, n: nat, m: nat): Context
    requires n <= m <= |log|
    decreases m - n
  {
    if n == m then ctx else Tally(base, log, Load(base, log, ctx, n), n + 1, m)
  }

  /** The first entry from n on that matches, or |log|. */
  function First(log: seq<Entry>, n: nat, id: nat, findValue: bool): (j: nat)
    requires n <= |log|
    ensures n <= j <= |log|
    ensures j < |log| ==> Matches(log[j].head, id, findValue)
    ensures forall k :: n <= k < j ==> !Matches(log[k].head, id, findValue)
    decreases |log| - n
  {
    if n == |log| then n
    else if Matches(log[n].head, id, findValue) then n
    else First(log, n + 1, id, findValue)
  }

  /** The address after entry i is the address of entry i + 1. */
  lemma {:induction false} NextAddr(mem: seq<Byte>, base: nat, end: nat, log: seq<Entry>, ctx: Context, i: int)
    requires Shape(mem, base, end, log) && -1 <= i < |log| && On(ctx, base, log, i)
    ensures base <= ctx.addr <= end
    ensures AddrOf(base, log, i + 1) == if i == -1 then base + REGION_HEADER_SIZE
            else ctx.addr + ENTRY_HEADER_SIZE + ctx.len
    ensures i >= 0 ==> ctx.addr > base
    ensures AddrOf(base, log, i + 1) <= EndOf(base, log) <= end
  {
    if i >= 0 {
      EntryBounds(log, i);
    }
    SizeMonotone(log, i + 1);
  }

  /** The scanner reads the header of entry n as that entry, not as the end mark. */
  lemma {:induction false} ReadHeader(mem: seq<Byte>, base: nat, end: nat, log: seq<Entry>, n: nat)
    requires Shape(mem, base, end, log) && n < |log|
    ensures WordAt(mem, AddrOf(base, log, n), end) != 0xffff
    ensures HeadOf(WordAt(mem, AddrOf(base, log, n), end)) == log[n].head
    ensures WordAt(mem, AddrOf(base, log, n) + 2, end) == |log[n].data|
  {
    DecodeHeader(mem, base, end, log, n);
    assert EntryOk(log[n]);
    HeadOfWord(log[n].head);
  }

  /** One step of the scan, from one entry of the log to the next. */
  lemma {:induction false} FindStep(mem: seq<Byte>, base: nat, end: nat, log: seq<Entry>, ctx: Context, i: int, id: nat,
                                    findValue: bool)
    requires Shape(mem, base, end, log) && -1 <= i < |log| - 1 && On(ctx, base, log, i)
    ensures base <= ctx.addr <= end
    ensures On(Load(base, log, ctx, i + 1), base, log, i + 1)
    ensures FindOnce(mem, base, end, ctx, id, findValue)
         == if Matches(log[i + 1].head, id, findValue) then Halt(Found(Ok, Load(base, log, ctx, i + 1), false))
            else Go(Load(base, log, ctx, i + 1))
  {
    NextAddr(mem, base, end, log, ctx, i);
    EntryBounds(log, i + 1);
    ReadHeader(mem, base, end, log, i + 1);
    hide Shape, WordAt, HeadOf, Matches, Size;
  }

  /** Past the last entry the scan stops at the end of the log. */
  lemma {:induction false} FindStop(mem: seq<Byte>, base: nat, end: nat, log: seq<Entry>, ctx: Context, id: nat,
                                    findValue: bool)
    requires Shape(mem, base, end, log) && On(ctx, base, log, |log| - 1)
    ensures base <= ctx.addr <= end
    ensures var s := FindOnce(mem, base, end, ctx, id, findValue);
            s.Halt? && !s.found.truncated && AtEnd(s.found, base, log, ctx, id)
  {
    NextAddr(mem, base, end, log, ctx, |log| - 1);
    assert log[..|log|] == log;
  }

  /** Scanning the bytes of a log is searching the log. */
  lemma {:induction false} FindInLog(mem: seq<Byte>, base: nat, end: nat, log: seq<Entry>, ctx: Context, i: int,
                                     id: nat, findValue: bool)
    requires Shape(mem, base, end, log) && -1 <= i < |log| && On(ctx, base, log, i)
    ensures base <= ctx.addr <= end
    ensures var j := First(log, i + 1, id, findValue);
            var r := Find(mem, base, end, ctx, id, findValue);
            && !r.truncated
            && (j < |log| ==> r.status == Ok && r.ctx == Tally(base, log, ctx, i + 1, j + 1) && On(r.ctx, base, log, j))
            && (j == |log| ==> AtEnd(r, base, log, Tally(base, log, ctx, i + 1, j), id))
    decreases |log| - i
  {
    hide FindOnce, Load, On, Shape, AtEnd, Matches;
    var n := i + 1;
    if n == |log| {
      FindStop(mem, base, end, log, ctx, id, findValue);
    } else {
      FindStep(mem, base, end, log, ctx, i, id, findValue);
      var next := Load(base, log, ctx, n);
      if Matches(log[n].head, id, findValue) {
        assert Tally(base, log, ctx, n, n + 1) == next;
      } else {
        FindInLog(mem, base, end, log, next, n, id, findValue);
      }
    }
  }

  /** A scan that ran off the log: the cursor is at the end and everything was counted. */
  predicate AtEnd(r: Found, base: nat, log: seq<Entry>, counted: Context, id: nat) {
    && r.status == (if id == ID_END then Ok else NotFound)
    && r.ctx.addr == EndOf(base, log)
    && (id != ID_END ==> r.ctx.len == 0)
    && r.ctx.unusedKeys == counted.unusedKeys
    && r.ctx.compactable == counted.compactable
    && r.ctx.maxKeyId == counted.maxKeyId
  }
}
