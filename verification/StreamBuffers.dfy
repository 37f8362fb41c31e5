/**
 * The byte ring and the message framing of FreeRTOS/Source/stream_buffer.c.
 *
 * The class is the ring as the code has it: a buffer of which one byte always stays free,
 * a head that only the writer moves and a tail that only the reader moves.  Then one writer
 * and one reader interleave, first over the contents as a sequence (`State`), then on the
 * ring itself (`Shared`), where every look at the indices, every copy and every move of an
 * index is a step of its own.
 */
module StreamBuffers {
  import opened Bytes

  type Message = seq<Byte>

  const PREFIX: nat := 4
  const MAX_LENGTH: nat := 0x1_0000_0000

  // ----------------------------------------------------------------------- framing

  /** The length of a message, as the four bytes in front of it. */
  function Prefix(n: nat): (p: seq<Byte>)
    requires n < MAX_LENGTH
    ensures |p| == PREFIX
  {
    [n % 0x100, n / 0x100 % 0x100, n / 0x1_0000 % 0x100, n / 0x100_0000]
  }

  function PrefixValue(p: seq<Byte>): nat
    requires |p| == PREFIX
  {
    p[0] as nat + 0x100 * (p[1] as nat) + 0x1_0000 * (p[2] as nat) + 0x100_0000 * (p[3] as nat)
  }

  lemma {:induction false} PrefixRoundTrip(n: nat)
    requires n < MAX_LENGTH
    ensures PrefixValue(Prefix(n)) == n
  {
    var a, b, c := n / 0x100, n / 0x1_0000, n / 0x100_0000;
    assert b == a / 0x100 && c == b / 0x100;
    assert n == 0x100 * a + n % 0x100 && a == 0x100 * b + a % 0x100 && b == 0x100 * c + b % 0x100;
  }

  predicate Sendable(m: Message) {
    0 < |m| < MAX_LENGTH
  }

  predicate AllSendable(q: seq<Message>) {
    forall i :: 0 <= i < |q| ==> Sendable(q[i])
  }

  /** The bytes that a sequence of messages takes in the buffer. */
  function Frames(q: seq<Message>): seq<Byte>
    requires AllSendable(q)
  {
    if q == [] then [] else Prefix(|q[0]|) + q[0] + Frames(q[1..])
  }

  lemma {:induction false} FramesAppend(q: seq<Message>, m: Message)
    requires AllSendable(q) && Sendable(m)
    ensures AllSendable(q + [m]) && Frames(q + [m]) == Frames(q) + Prefix(|m|) + m
  {
    if q == [] {
      assert q + [m] == [m] && [m][1..] == [];
    } else {
      assert (q + [m])[1..] == q[1..] + [m] && (q + [m])[0] == q[0];
      FramesAppend(q[1..], m);
    }
  }

  lemma {:induction false} Parts<T>(a: seq<T>, b: seq<T>, c: seq<T>, d: seq<T>)
    ensures var s := a + b + c + d;
            && s[..|a|] == a && s[|a|..|a| + |b|] == b && s[|a| + |b|..] == c + d && s[|a|..] == b + c + d
  {
  }

  /** The first frame of a non-empty sequence. */
  lemma {:induction false} FirstFrame(q: seq<Message>, rest: seq<Byte>)
    requires AllSendable(q) && q != []
    ensures var c, n := Frames(q) + rest, |q[0]|;
            && |c| >= PREFIX + n && c[..PREFIX] == Prefix(n) && c[PREFIX..PREFIX + n] == q[0]
            && c[PREFIX + n..] == Frames(q[1..]) + rest
            && c[PREFIX..] == q[0] + Frames(q[1..]) + rest
  {
    hide Prefix;
    Parts(Prefix(|q[0]|), q[0], Frames(q[1..]), rest);
  }

  // ----------------------------------------------------------------------- the ring

  /** The bytes from the tail to the head, around the end of the buffer. */
  function Ring(b: seq<Byte>, head: nat, tail: nat): (c: seq<Byte>)
    requires head < |b| && tail < |b|
    ensures |c| == if head >= tail then head - tail else |b| - tail + head
  {
    if head >= tail then b[tail..head] else b[tail..] + b[..head]
  }

  /** An index moved on by n, around the end of the buffer. */
  function Moved(i: nat, n: nat, length: nat): nat {
    if i + n >= length then i + n - length else i + n
  }

  class StreamBuffer {
    const buffer: array<Byte>
    var head: nat
    var tail: nat

    ghost predicate Valid()
      reads this
    {
      head < buffer.Length && tail < buffer.Length
    }

    /** The bytes that have been written and not yet read. */
    ghost function Contents(): (s: seq<Byte>)
      requires Valid()
      reads this, buffer
    {
      Ring(buffer[..], head, tail)
    }

    constructor (length: nat)
      requires length > 0
      ensures Valid() && fresh(buffer) && buffer.Length == length && Contents() == []
    {
      buffer := new Byte[length];
      head, tail := 0, 0;
    }

    /** xStreamBufferSpacesAvailable */
    method SpacesAvailable() returns (space: nat)
      requires Valid()
      ensures space + |Contents()| == buffer.Length - 1
    {
      hide Ring;
      space := buffer.Length + tail - head - 1;
      if space >= buffer.Length {
        space := space - buffer.Length;
      }
    }

    /** prvBytesInBuffer */
    method BytesInBuffer() returns (count: nat)
      requires Valid()
      ensures count == |Contents()|
    {
      hide Ring;
      count := buffer.Length + head - tail;
      if count >= buffer.Length {
        count := count - buffer.Length;
      }
    }

    /** memcpy into the buffer. */
    method CopyIn(at: nat, data: seq<Byte>)
      requires at + |data| <= buffer.Length
      modifies buffer
      ensures buffer[..] == old(buffer[..at]) + data + old(buffer[at + |data|..])
    {
      forall i | 0 <= i < |data| {
        buffer[at + i] := data[i];
      }
    }

    /** prvWriteBytesToBuffer: at most two copies, then the head moves once. */
    method WriteBytes(data: seq<Byte>)
      requires Valid() && 0 < |data| < buffer.Length - |Contents()|
      modifies this`head, buffer
      ensures Valid() && Contents() == old(Contents()) + data
    {
      hide Ring;
      ghost var b := buffer[..];
      var first := Min(buffer.Length - head, |data|);
      CopyIn(head, data[..first]);
      ghost var b1 := buffer[..];
      if |data| > first {
        CopyIn(0, data[first..]);
      }
      var next := head + |data|;
      if next >= buffer.Length {
        next := next - buffer.Length;
      }
      Written(b, b1, buffer[..], head, tail, data, first);
      head := next;
    }

    /** prvReadBytesFromBuffer: at most two copies, then the tail moves once. */
    method ReadBytes(max: nat, available: nat) returns (data: seq<Byte>)
      requires Valid() && available <= |Contents()|
      modifies this`tail
      ensures Valid() && data == old(Contents())[..Min(available, max)]
      ensures Contents() == old(Contents())[Min(available, max)..]
    {
      hide Ring;
      var count := Min(available, max);
      data := [];
      if count > 0 {
        var next := tail;
        var first := Min(buffer.Length - next, count);
        ReadOut(buffer[..], head, tail, count, first);
        data := buffer[..][next..next + first];
        if count > first {
          data := data + buffer[..][..count - first];
        }
        next := next + count;
        if next >= buffer.Length {
          next := next - buffer.Length;
        }
        tail := next;
      }
    }

    /** prvWriteMessageToBuffer, for a message buffer: the whole frame, or nothing. */
    method SendMessage(m: Message, ghost q: seq<Message>) returns (sent: nat)
      requires Valid() && Sendable(m) && AllSendable(q) && Contents() == Frames(q)
      modifies this`head, buffer
      ensures Valid() && AllSendable(q + [m])
      ensures sent == if |old(Contents())| + PREFIX + |m| < buffer.Length then |m| else 0
      ensures Contents() == if sent > 0 then Frames(q + [m]) else Frames(q)
    {
      FramesAppend(q, m);
      var space := SpacesAvailable();
      sent := 0;
      if space >= |m| + PREFIX {
        WriteBytes(Prefix(|m|));
        WriteBytes(m);
        sent := |m|;
      }
    }

    /** prvReadMessageFromBuffer, for a message buffer: a message that is too long for the caller stays. */
    method ReceiveMessage(max: nat, ghost q: seq<Message>) returns (m: Message)
      requires Valid() && AllSendable(q) && Contents() == Frames(q)
      modifies this`tail
      ensures Valid()
      ensures m == if q != [] && |q[0]| <= max then q[0] else []
      ensures Contents() == if q != [] && |q[0]| <= max then Frames(q[1..]) else Frames(q)
    {
      hide Ring, Frames, Prefix, PrefixValue;
      m := [];
      var available := BytesInBuffer();
      if q != [] {
        FirstFrame(q, []);
        assert Frames(q) + [] == Frames(q) && Frames(q[1..]) + [] == Frames(q[1..]);
        PrefixRoundTrip(|q[0]|);
      } else {
        NoFrames();
      }
      if available > PREFIX {
        var original := tail;
        var p := ReadBytes(PREFIX, available);
        var n := PrefixValue(p);
        if n > max {
          tail := original;
        } else {
          ghost var c := Contents();
          m := ReadBytes(n, available - PREFIX);
          assert c[..n] == q[0] && c[n..] == Frames(q[1..]);
        }
      }
    }
  }

  /** A write that does not run past the end of the buffer. */
  lemma {:induction false} WrittenFlat(b: seq<Byte>, b1: seq<Byte>, head: nat, tail: nat, data: seq<Byte>)
    requires head < |b| && tail < |b| && 0 < |data| <= |b| - head && |data| < |b| - |Ring(b, head, tail)|
    requires b1 == b[..head] + data + b[head + |data|..]
    ensures |b1| == |b| && Moved(head, |data|, |b|) < |b|
    ensures Ring(b1, Moved(head, |data|, |b|), tail) == Ring(b, head, tail) + data
  {
    assert b1[head..head + |data|] == data;
    if head >= tail {
      assert b1[tail..head + |data|] == b[tail..head] + data;
      if head + |data| == |b| {
        assert b1[..0] == [];
        assert b1[tail..] == b1[tail..head + |data|];
      }
    } else {
      assert b1[tail..] == b[tail..];
      assert b1[..head + |data|] == b[..head] + data;
    }
  }

  /** A write that runs past the end of the buffer goes on at its start. */
  lemma {:induction false} WrittenWrapped(b: seq<Byte>, b2: seq<Byte>, head: nat, tail: nat, data: seq<Byte>,
                                          first: nat)
    requires head < |b| && tail < |b| && first == |b| - head && first < |data| < |b| - |Ring(b, head, tail)|
    requires b2 == data[first..] + b[|data| - first..head] + data[..first]
    ensures |b2| == |b| && Moved(head, |data|, |b|) == |data| - first
    ensures Ring(b2, |data| - first, tail) == Ring(b, head, tail) + data
  {
    assert |data| - first < tail <= head;
    assert b2[..|data| - first] == data[first..];
    assert b2[tail..] == b[tail..head] + data[..first];
    assert (b[tail..head] + data[..first]) + data[first..] == b[tail..head] + data;
  }

  /** The two copies of a write put the data behind the contents. */
  lemma {:induction false} Written(b: seq<Byte>, b1: seq<Byte>, b2: seq<Byte>, head: nat, tail: nat, data: seq<Byte>,
                                   first: nat)
    requires head < |b| && tail < |b| && first == Min(|b| - head, |data|) && 0 < |data| < |b| - |Ring(b, head, tail)|
    requires b1 == b[..head] + data[..first] + b[head + first..]
    requires b2 == if |data| > first then data[first..] + b1[|data| - first..] else b1
    ensures |b2| == |b| && Moved(head, |data|, |b|) < |b|
    ensures Ring(b2, Moved(head, |data|, |b|), tail) == Ring(b, head, tail) + data
  {
    hide Ring;
    if |data| > first {
      assert b2 == data[first..] + b[|data| - first..head] + data[..first];
      WrittenWrapped(b, b2, head, tail, data, first);
    } else {
      assert data[..first] == data;
      WrittenFlat(b, b1, head, tail, data);
    }
  }

  /** The two copies of a read take the first bytes of the contents. */
  lemma {:induction false} ReadOut(b: seq<Byte>, head: nat, tail: nat, count: nat, first: nat)
    requires head < |b| && tail < |b| && first == Min(|b| - tail, count) && 0 < count <= |Ring(b, head, tail)|
    ensures Moved(tail, count, |b|) < |b|
    ensures count > first ==> b[tail..tail + first] + b[..count - first] == Ring(b, head, tail)[..count]
    ensures count == first ==> b[tail..tail + first] == Ring(b, head, tail)[..count]
    ensures Ring(b, head, Moved(tail, count, |b|)) == Ring(b, head, tail)[count..]
  {
  }

  // ------------------------------------------------------- one writer and one reader

  /** The writer has checked the space for its message, or has written the prefix. */
  datatype Writer = Resting | Checked(m: Message) | Prefixed(m: Message)

  /** The reader has seen bytes, or has read a prefix and knows how many bytes to take. */
  datatype Reader = Waiting | Seen(available: nat) | Knows(length: nat, left: nat)

  /** `queue` holds the complete frames in the buffer and `taking` the message the reader is half through. */
  datatype State = State(
    capacity: nat, c: seq<Byte>, writer: Writer, reader: Reader,
    sent: seq<Message>, received: seq<Message>, queue: seq<Message>, taking: seq<Message>)

  datatype Step = Check(m: Message) | WritePrefix | WriteData | Look | ReadPrefix | ReadData

  /**
   * What is in the buffer: the rest of a message being read, complete frames, and perhaps
   * the prefix of one being written.
   */
  function Layout(s: State): seq<Byte>
    requires AllSendable(s.queue) && AllSendable(s.taking) && |s.taking| <= 1
    requires (s.writer.Prefixed? ==> Sendable(s.writer.m))
  {
    (if s.taking == [] then [] else s.taking[0]) + (Frames(s.queue) + if s.writer.Prefixed? then Prefix(|s.writer.m|)
        else [])
  }

  predicate WriterOk(s: State) {
    match s.writer
    case Resting => true
    case Checked(m) => Sendable(m) && |s.c| + PREFIX + |m| <= s.capacity
    case Prefixed(m) => Sendable(m) && |s.c| + |m| <= s.capacity
  }

  predicate ReaderOk(s: State) {
    match s.reader
    case Waiting => s.taking == []
    case Seen(available) => s.taking == [] && s.queue != [] && available >= PREFIX + |s.queue[0]|
    case Knows(length, left) => |s.taking| == 1 && length == |s.taking[0]| <= left
  }

  predicate Inv(s: State) {
    && AllSendable(s.queue) && AllSendable(s.taking) && |s.taking| <= 1 && WriterOk(s) && ReaderOk(s)
    && |s.c| <= s.capacity
    && s.c == Layout(s) && s.received + s.taking + s.queue == s.sent
  }

  predicate Enabled(s: State, st: Step) {
    match st
    case Check(m) => s.writer == Resting && Sendable(m)
    case WritePrefix => s.writer.Checked? && Sendable(s.writer.m)
    case WriteData => s.writer.Prefixed?
    case Look => s.reader == Waiting
    case ReadPrefix => s.reader.Seen? && |s.c| >= PREFIX && s.reader.available >= PREFIX
    case ReadData => s.reader.Knows? && Min(s.reader.left, s.reader.length) <= |s.c|
  }

  /** One move of an index, or one look at the indices. */
  function Next(s: State, st: Step): State
    requires Enabled(s, st)
  {
    match st
    case Check(m) => if s.capacity - |s.c| >= PREFIX + |m| then s.(writer := Checked(m)) else s
    case WritePrefix => s.(c := s.c + Prefix(|s.writer.m|), writer := Prefixed(s.writer.m))
    case WriteData => s.(c := s.c + s.writer.m, writer := Resting, sent := s.sent + [s.writer.m],
        queue := s.queue + [s.writer.m])
    case Look => if |s.c| > PREFIX then s.(reader := Seen(|s.c|)) else s
    case ReadPrefix =>
      s.(reader := Knows(PrefixValue(s.c[..PREFIX]), s.reader.available - PREFIX), c := s.c[PREFIX..],
         taking := if s.queue == [] then [] else [s.queue[0]], queue := if s.queue == [] then [] else s.queue[1..])
    case ReadData =>
      var n := Min(s.reader.left, s.reader.length);
      s.(reader := Waiting, received := s.received + [s.c[..n]], c := s.c[n..], taking := [])
  }

  lemma {:induction false} CheckInv(s: State, m: Message)
    requires Inv(s) && Enabled(s, Check(m))
    ensures Inv(Next(s, Check(m)))
  {
  }

  lemma {:induction false} WritePrefixInv(s: State)
    requires Inv(s) && Enabled(s, WritePrefix)
    ensures Inv(Next(s, WritePrefix))
  {
    hide Frames, Prefix;
    var p := Prefix(|s.writer.m|);
    var first := if s.taking == [] then [] else s.taking[0];
    assert Frames(s.queue) + [] == Frames(s.queue);
    assert first + Frames(s.queue) + p == first + (Frames(s.queue) + p);
  }

  lemma {:induction false} WriteDataInv(s: State)
    requires Inv(s) && Enabled(s, WriteData)
    ensures Inv(Next(s, WriteData))
  {
    hide Frames, Prefix;
    var m := s.writer.m;
    FramesAppend(s.queue, m);
    var first := if s.taking == [] then [] else s.taking[0];
    assert first + (Frames(s.queue) + Prefix(|m|)) + m == first + (Frames(s.queue) + Prefix(|m|) + m);
    assert Frames(s.queue + [m]) + [] == Frames(s.queue + [m]);
    assert s.received + s.taking + (s.queue + [m]) == s.received + s.taking + s.queue + [m];
  }

  /** More than a prefix in the buffer means a complete frame. */
  lemma {:induction false} LookInv(s: State)
    requires Inv(s) && Enabled(s, Look)
    ensures Inv(Next(s, Look))
  {
    if s.queue != [] {
      FirstFrame(s.queue, if s.writer.Prefixed? then Prefix(|s.writer.m|) else []);
    }
    hide Frames, Prefix;
    assert [] + (Frames(s.queue) + if s.writer.Prefixed? then Prefix(|s.writer.m|) else [])
           == Frames(s.queue) + if s.writer.Prefixed? then Prefix(|s.writer.m|) else [];
    if s.queue == [] {
      NoFrames();
    }
  }

  lemma {:induction false} NoFrames()
    ensures Frames([]) == []
  {
  }

  /** A reader that has seen bytes finds the prefix of the first message. */
  lemma {:induction false} ReadPrefixInv(s: State)
    requires Inv(s) && s.reader.Seen?
    ensures Enabled(s, ReadPrefix) && Inv(Next(s, ReadPrefix))
  {
    hide Frames, Prefix, PrefixValue;
    var rest := if s.writer.Prefixed? then Prefix(|s.writer.m|) else [];
    FirstFrame(s.queue, rest);
    var m := s.queue[0];
    assert s.c == Frames(s.queue) + rest;
    PrefixRoundTrip(|m|);
    assert s.c[PREFIX..] == m + (Frames(s.queue[1..]) + rest);
    assert [m] + s.queue[1..] == s.queue;
    assert s.received + [m] + s.queue[1..] == s.received + [] + s.queue;
  }

  /** A reader without room for the message leaves it where it is. */
  lemma {:induction false} GiveUpInv(s: State)
    requires Inv(s) && s.reader.Seen?
    ensures Inv(s.(reader := Waiting))
  {
  }

  /** A reader that knows the length takes exactly the message. */
  lemma {:induction false} ReadDataInv(s: State)
    requires Inv(s) && s.reader.Knows?
    ensures Enabled(s, ReadData) && Inv(Next(s, ReadData))
    ensures Next(s, ReadData).received == s.received + s.taking
  {
    hide Frames, Prefix;
    var m := s.taking[0];
    var rest := Frames(s.queue) + if s.writer.Prefixed? then Prefix(|s.writer.m|) else [];
    assert s.c == m + rest;
    assert s.c[..|m|] == m && s.c[|m|..] == rest;
    assert s.taking == [m] && s.received + [m] + [] + s.queue == s.received + s.taking + s.queue;
  }

  lemma {:induction false} Prefixes(s: State)
    requires Inv(s)
    ensures |s.received| <= |s.sent| && s.sent[..|s.received|] == s.received && |s.c| <= s.capacity
  {
  }

  // ----------------------------------------------------------- the two on the ring

  /** The writer copies the length (body is false) or the bytes of m; the first `copied` of them are in the buffer. */
  datatype Put = Idle | Copying(m: Message, body: bool, copied: nat)

  /**
   * The reader, which saw `available` bytes, takes a length or `length` bytes of a message; it
   * has `got` some.  Or it has moved the tail past a length it has no room for, and is about
   * to put it back where it was.
   */
  datatype Get =
    | Asleep | Getting(body: bool, length: nat, available: nat, got: seq<Byte>) | Refusing(original: nat)

  /** `queue` and `taking` are for the proof only: what complete frames there are and which message is half read. */
  datatype Shared = Shared(
    b: seq<Byte>, head: nat, tail: nat, put: Put, get: Get,
    sent: seq<Message>, received: seq<Message>, queue: seq<Message>, taking: seq<Message>)

  /** One look at both indices, one copy that does not run past the end of the buffer, or one move of an index. */
  datatype Move =
    | CheckSpace(m: Message) | PutSome(n: nat) | MoveHead
    | CountBytes | GetSome(n: nat) | MoveTail | Refuse(room: nat) | PutBack

  function Data(p: Put): seq<Byte>
    requires p.Copying? && Sendable(p.m)
  {
    if p.body then p.m else Prefix(|p.m|)
  }

  function Want(g: Get): nat
    requires g.Getting?
  {
    Min(g.available, if g.body then g.length else PREFIX)
  }

  predicate Shaped(r: Shared) {
    && r.head < |r.b| && r.tail < |r.b|
    && (r.put.Copying? ==> Sendable(r.put.m) && r.put.copied <= |Data(r.put)| < |r.b|)
    && (r.get.Getting? ==> |r.get.got| <= Want(r.get) < |r.b| && r.get.available < |r.b|)
    && (r.get.Refusing? ==> r.get.original < |r.b| && r.tail == Moved(r.get.original, PREFIX, |r.b|))
  }

  /** Where the contents start: at the tail, or at where it is about to be put back. */
  function Start(r: Shared): nat {
    if r.get.Refusing? then r.get.original else r.tail
  }

  /** xStreamBufferSpacesAvailable, prvBytesInBuffer: on the indices as they are. */
  function Space(length: nat, head: nat, tail: nat): nat
    requires head < length && tail < length
  {
    var n := length + tail - head - 1;
    if n >= length then n - length else n
  }

  function Count(length: nat, head: nat, tail: nat): nat
    requires head < length && tail < length
  {
    var n := length + head - tail;
    if n >= length then n - length else n
  }

  /** The frame of m fits only into the room that the moved tail pretends there is. */
  predicate Fooled(r: Shared, m: Message)
    requires Shaped(r)
  {
    Space(|r.b|, r.head, Start(r)) < PREFIX + |m| <= Space(|r.b|, r.head, r.tail)
  }

  /** The writer looks at the indices as they are. */
  function Checking(r: Shared, m: Message): Shared
    requires Shaped(r)
  {
    if Space(|r.b|, r.head, r.tail) >= PREFIX + |m| then r.(put := Copying(m, false, 0)) else r
  }

  predicate CanMove(r: Shared, mv: Move)
    requires Shaped(r)
  {
    match mv
    case CheckSpace(m) => r.put == Idle && Sendable(m) && !Fooled(r, m)
    case PutSome(n) =>
      && r.put.Copying? && 0 < n && r.put.copied + n <= |Data(r.put)|
      && Moved(r.head, r.put.copied, |r.b|) + n <= |r.b|
    case MoveHead => r.put.Copying? && r.put.copied == |Data(r.put)|
    case CountBytes => r.get == Asleep
    case GetSome(n) =>
      && r.get.Getting? && 0 < n && |r.get.got| + n <= Want(r.get)
      && Moved(r.tail, |r.get.got|, |r.b|) + n <= |r.b|
    case MoveTail => r.get.Getting? && |r.get.got| == Want(r.get) && (!r.get.body ==> Want(r.get) == PREFIX)
    case Refuse(room) => r.get.Getting? && !r.get.body && |r.get.got| == PREFIX && PrefixValue(r.get.got) > room
    case PutBack => r.get.Refusing?
  }

  function Do(r: Shared, mv: Move): Shared
    requires Shaped(r) && CanMove(r, mv)
  {
    match mv
    case CheckSpace(m) => Checking(r, m)
    case PutSome(n) =>
      var at, k := Moved(r.head, r.put.copied, |r.b|), r.put.copied;
      r.(b := r.b[..at] + Data(r.put)[k..k + n] + r.b[at + n..], put := r.put.(copied := k + n))
    case MoveHead =>
      var r1 := r.(head := Moved(r.head, |Data(r.put)|, |r.b|));
      if !r.put.body then r1.(put := Copying(r.put.m, true, 0))
      else r1.(put := Idle, sent := r.sent + [r.put.m], queue := r.queue + [r.put.m])
    case CountBytes =>
      var n := Count(|r.b|, r.head, r.tail);
      if n > PREFIX then r.(get := Getting(false, 0, n, [])) else r
    case GetSome(n) =>
      var at := Moved(r.tail, |r.get.got|, |r.b|);
      r.(get := r.get.(got := r.get.got + r.b[at..at + n]))
    case MoveTail =>
      var r1 := r.(tail := Moved(r.tail, Want(r.get), |r.b|));
      if !r.get.body then
        r1.(get := Getting(true, PrefixValue(r.get.got), r.get.available - PREFIX, []),
            taking := if r.queue == [] then [] else [r.queue[0]], queue := if r.queue == [] then [] else r.queue[1..])
      else r1.(get := Asleep, received := r.received + [r.get.got], taking := [])
    case Refuse(_) => r.(tail := Moved(r.tail, PREFIX, |r.b|), get := Refusing(r.tail))
    case PutBack => r.(tail := r.get.original, get := Asleep)
  }

  /** What the ring stands for: its contents, and how far each side is. */
  function Abstract(r: Shared): State
    requires Shaped(r)
  {
    State(|r.b| - 1, Ring(r.b, r.head, Start(r)),
          match r.put
          case Idle => Resting
          case Copying(m, body, _) => if body then Prefixed(m) else Checked(m),
          match r.get
          case Asleep => Waiting
          case Refusing(_) => Waiting
          case Getting(body, length, available, _) => if body then Knows(length, available) else Seen(available),
          r.sent, r.received, r.queue, r.taking)
  }

  /** Behind the head lies what has been copied so far; what has been got is the front of the contents. */
  ghost predicate RingInv(r: Shared) {
    && Shaped(r) && Inv(Abstract(r))
    && (r.put.Copying? ==> Copied(r.b, r.head, Data(r.put), r.put.copied))
    && (r.get.Getting? ==> Want(r.get) <= |Abstract(r).c| && r.get.got == Abstract(r).c[..|r.get.got|])
    && (r.get.Refusing? ==> PREFIX <= |Abstract(r).c|)
  }

  ghost predicate Copied(b: seq<Byte>, head: nat, data: seq<Byte>, n: nat) {
    head < |b| && n <= |data| < |b| && forall k :: 0 <= k < n ==> b[Moved(head, k, |b|)] == data[k]
  }

  lemma {:induction false} RingAt(b: seq<Byte>, head: nat, tail: nat, k: nat)
    requires head < |b| && tail < |b| && k < |Ring(b, head, tail)|
    ensures Moved(tail, k, |b|) < |b| && Ring(b, head, tail)[k] == b[Moved(tail, k, |b|)]
  {
  }

  lemma {:induction false} Counted(b: seq<Byte>, head: nat, tail: nat)
    requires head < |b| && tail < |b|
    ensures Count(|b|, head, tail) == |Ring(b, head, tail)| && Space(|b|, head, tail) == |b| - 1 - |Ring(b, head, tail)|
  {
  }

  /** Position i of the contents is none of the positions behind the head. */
  lemma {:induction false} PlacesDiffer(length: nat, head: nat, tail: nat, count: nat, i: nat, k: nat)
    requires head < length && tail < length && Count(length, head, tail) == count && i < count && k < length - count
    ensures Moved(tail, i, length) != Moved(head, k, length)
  {
  }

  /** A copy behind the head leaves the contents alone. */
  lemma {:induction false} PutKeeps(b: seq<Byte>, b2: seq<Byte>, head: nat, tail: nat, data: seq<Byte>, k: nat, n: nat)
    requires head < |b| && tail < |b| && k + n <= |data| && |Ring(b, head, tail)| + |data| < |b|
    requires Moved(head, k, |b|) + n <= |b| && Copied(b, head, data, k)
    requires b2 == b[..Moved(head, k, |b|)] + data[k..k + n] + b[Moved(head, k, |b|) + n..]
    ensures |b2| == |b| && Ring(b2, head, tail) == Ring(b, head, tail) && Copied(b2, head, data, k + n)
  {
    PutRing(b, b2, head, tail, data[k..k + n], k);
    PutCopied(b, b2, head, data, k, n);
  }

  lemma {:induction false} PutRing(b: seq<Byte>, b2: seq<Byte>, head: nat, tail: nat, chunk: seq<Byte>, k: nat)
    requires head < |b| && tail < |b| && |Ring(b, head, tail)| + k + |chunk| < |b|
    requires Moved(head, k, |b|) + |chunk| <= |b|
    requires b2 == b[..Moved(head, k, |b|)] + chunk + b[Moved(head, k, |b|) + |chunk|..]
    ensures |b2| == |b| && Ring(b2, head, tail) == Ring(b, head, tail)
  {
    var at, c := Moved(head, k, |b|), Ring(b, head, tail);
    var c2 := Ring(b2, head, tail);
    Counted(b, head, tail);
    forall i | 0 <= i < |c|
      ensures c2[i] == c[i]
    {
      RingAt(b, head, tail, i);
      RingAt(b2, head, tail, i);
      var p := Moved(tail, i, |b|);
      if at <= p < at + |chunk| {
        PlacesDiffer(|b|, head, tail, |c|, i, k + (p - at));
      }
    }
  }

  lemma {:induction false} PutCopied(b: seq<Byte>, b2: seq<Byte>, head: nat, data: seq<Byte>, k: nat, n: nat)
    requires head < |b| && k + n <= |data| < |b| && Moved(head, k, |b|) + n <= |b| && Copied(b, head, data, k)
    requires b2 == b[..Moved(head, k, |b|)] + data[k..k + n] + b[Moved(head, k, |b|) + n..]
    ensures Copied(b2, head, data, k + n)
  {
    var at := Moved(head, k, |b|);
    forall i | 0 <= i < k + n
      ensures b2[Moved(head, i, |b|)] == data[i]
    {
      if i < k {
        assert b2[Moved(head, i, |b|)] == b[Moved(head, i, |b|)];
      } else {
        assert Moved(head, i, |b|) == at + (i - k);
      }
    }
  }

  /** Moving the head takes in what has been copied, wherever the tail is by then. */
  lemma {:induction false} HeadMoves(b: seq<Byte>, head: nat, tail: nat, data: seq<Byte>)
    requires head < |b| && tail < |b| && |Ring(b, head, tail)| + |data| < |b| && Copied(b, head, data, |data|)
    ensures Moved(head, |data|, |b|) < |b|
    ensures Ring(b, Moved(head, |data|, |b|), tail) == Ring(b, head, tail) + data
  {
    var c, next := Ring(b, head, tail), Moved(head, |data|, |b|);
    var c2 := Ring(b, next, tail);
    assert |c2| == |c| + |data|;
    forall i | 0 <= i < |c2|
      ensures c2[i] == (c + data)[i]
    {
      RingAt(b, next, tail, i);
      if i < |c| {
        RingAt(b, head, tail, i);
      } else {
        assert Moved(tail, i, |b|) == Moved(head, i - |c|, |b|);
      }
    }
  }

  lemma {:induction false} GotMore(b: seq<Byte>, head: nat, tail: nat, got: seq<Byte>, n: nat)
    requires head < |b| && tail < |b| && |got| + n <= |Ring(b, head, tail)| && got == Ring(b, head, tail)[..|got|]
    requires Moved(tail, |got|, |b|) + n <= |b|
    ensures var at := Moved(tail, |got|, |b|);
            got + b[at..at + n] == Ring(b, head, tail)[..|got| + n]
  {
    hide Ring;
    var at, c := Moved(tail, |got|, |b|), Ring(b, head, tail);
    var more := b[at..at + n];
    Counted(b, head, tail);
    forall i | 0 <= i < |more|
      ensures more[i] == c[|got| + i]
    {
      RingAt(b, head, tail, |got| + i);
    }
    assert c[..|got| + n] == c[..|got|] + c[|got|..|got| + n];
    assert more == c[|got|..|got| + n];
  }

  lemma {:induction false} TailMoves(b: seq<Byte>, head: nat, tail: nat, n: nat)
    requires head < |b| && tail < |b| && n <= |Ring(b, head, tail)|
    ensures Moved(tail, n, |b|) < |b| && Ring(b, head, Moved(tail, n, |b|)) == Ring(b, head, tail)[n..]
  {
    var next, c := Moved(tail, n, |b|), Ring(b, head, tail);
    var c2 := Ring(b, head, next);
    assert |c2| == |c| - n;
    forall i | 0 <= i < |c2|
      ensures c2[i] == c[n..][i]
    {
      RingAt(b, head, next, i);
      RingAt(b, head, tail, n + i);
    }
  }

  /** The room that the writer has checked is still there: meanwhile only the reader has moved. */
  lemma {:induction false} RoomLeft(r: Shared)
    requires Shaped(r) && Inv(Abstract(r)) && r.put.Copying?
    ensures |Ring(r.b, r.head, Start(r))| + |Data(r.put)| < |r.b| && |r.put.m| < |r.b|
  {
    hide Frames, Prefix;
  }

  /** While a refusing reader has the tail moved on, a check for room keeps order if and only if it is not fooled. */
  lemma {:induction false} CheckExact(r: Shared, m: Message)
    requires RingInv(r) && r.put == Idle && Sendable(m)
    ensures RingInv(Checking(r, m)) <==> !Fooled(r, m)
  {
    Counted(r.b, r.head, Start(r));
    Counted(r.b, r.head, r.tail);
    if Fooled(r, m) {
      NoRoom(Abstract(Checking(r, m)));
    } else {
      RoomSeen(r);
      CheckInv(Abstract(r), m);
      hide Inv, Ring;
      var q := Checking(r, m);
      if q.put.Copying? {
        assert Abstract(q) == Next(Abstract(r), Check(m));
      }
    }
  }

  lemma {:induction false} NoRoom(s: State)
    requires s.writer.Checked?
    ensures Inv(s) ==> |s.c| + PREFIX + |s.writer.m| <= s.capacity
  {
  }

  /** The moved tail only ever adds to the room there seems to be. */
  lemma {:induction false} RoomSeen(r: Shared)
    requires RingInv(r)
    ensures Space(|r.b|, r.head, Start(r)) <= Space(|r.b|, r.head, r.tail)
  {
    if r.get.Refusing? {
      TailMoves(r.b, r.head, r.get.original, PREFIX);
      Counted(r.b, r.head, r.get.original);
      Counted(r.b, r.head, r.tail);
    }
  }

  lemma {:induction false} CheckSpaceInv(r: Shared, m: Message)
    requires RingInv(r) && CanMove(r, CheckSpace(m))
    ensures RingInv(Do(r, CheckSpace(m)))
  {
    hide RingInv, Fooled, Checking;
    CheckExact(r, m);
  }

  lemma {:induction false} PutSomeInv(r: Shared, n: nat)
    requires RingInv(r) && CanMove(r, PutSome(n))
    ensures RingInv(Do(r, PutSome(n)))
  {
    hide Inv, Ring, Copied;
    RoomLeft(r);
    var q := Do(r, PutSome(n));
    PutKeeps(r.b, q.b, r.head, Start(r), Data(r.put), r.put.copied, n);
    assert Abstract(q) == Abstract(r);
  }

  lemma {:induction false} MoveHeadInv(r: Shared)
    requires RingInv(r) && CanMove(r, MoveHead)
    ensures RingInv(Do(r, MoveHead))
  {
    hide Inv, Ring, Prefix;
    RoomLeft(r);
    HeadMoves(r.b, r.head, Start(r), Data(r.put));
    var s, q := Abstract(r), Do(r, MoveHead);
    if r.put.body {
      WriteDataInv(s);
      assert Abstract(q) == Next(s, WriteData);
    } else {
      WritePrefixInv(s);
      assert Abstract(q) == Next(s, WritePrefix);
    }
    if r.get.Getting? {
      assert (s.c + Data(r.put))[..|r.get.got|] == s.c[..|r.get.got|];
    }
  }

  lemma {:induction false} CountBytesInv(r: Shared)
    requires RingInv(r) && CanMove(r, CountBytes)
    ensures RingInv(Do(r, CountBytes))
  {
    hide Inv, Ring, Copied, Prefix;
    Counted(r.b, r.head, r.tail);
    LookInv(Abstract(r));
    var q := Do(r, CountBytes);
    if q.get.Getting? {
      assert Abstract(q) == Next(Abstract(r), Look);
    }
  }

  lemma {:induction false} GetSomeInv(r: Shared, n: nat)
    requires RingInv(r) && CanMove(r, GetSome(n))
    ensures RingInv(Do(r, GetSome(n)))
  {
    hide Inv, Ring, Copied, Prefix;
    GotMore(r.b, r.head, r.tail, r.get.got, n);
    assert Abstract(Do(r, GetSome(n))) == Abstract(r);
  }

  lemma {:induction false} MoveTailInv(r: Shared)
    requires RingInv(r) && CanMove(r, MoveTail)
    ensures RingInv(Do(r, MoveTail))
  {
    hide Inv, Ring, Copied, Prefix, PrefixValue;
    TailMoves(r.b, r.head, r.tail, Want(r.get));
    var s, q := Abstract(r), Do(r, MoveTail);
    if r.get.body {
      ReadDataInv(s);
      assert Abstract(q) == Next(s, ReadData);
    } else {
      ReadPrefixInv(s);
      assert Abstract(q) == Next(s, ReadPrefix);
      ReadDataInv(Abstract(q));
    }
  }

  lemma {:induction false} RefuseInv(r: Shared, room: nat)
    requires RingInv(r) && CanMove(r, Refuse(room))
    ensures RingInv(Do(r, Refuse(room)))
  {
    hide Inv, Ring, Copied, Prefix, PrefixValue;
    TailMoves(r.b, r.head, r.tail, PREFIX);
    GiveUpInv(Abstract(r));
    assert Abstract(Do(r, Refuse(room))) == Abstract(r).(reader := Waiting);
  }

  /** Putting the tail back is seen by nobody who has not looked in between. */
  lemma {:induction false} PutBackInv(r: Shared)
    requires RingInv(r) && CanMove(r, PutBack)
    ensures RingInv(Do(r, PutBack))
  {
    hide Inv, Ring, Copied, Prefix;
    assert Abstract(Do(r, PutBack)) == Abstract(r);
  }

  /** Every look, copy and move of either side keeps the contents of the ring the frames they should be. */
  lemma {:induction false} MoveInv(r: Shared, mv: Move)
    requires RingInv(r) && CanMove(r, mv)
    ensures RingInv(Do(r, mv))
  {
    hide *;
    match mv
    case CheckSpace(m) => CheckSpaceInv(r, m);
    case PutSome(n) => PutSomeInv(r, n);
    case MoveHead => MoveHeadInv(r);
    case CountBytes => CountBytesInv(r);
    case GetSome(n) => GetSomeInv(r, n);
    case MoveTail => MoveTailInv(r);
    case Refuse(room) => RefuseInv(r, room);
    case PutBack => PutBackInv(r);
  }

  /** The data has been written behind the head, and nothing else. */
  ghost predicate Wrote(b: seq<Byte>, b2: seq<Byte>, head: nat, data: seq<Byte>) {
    && |b2| == |b| && Copied(b2, head, data, |data|)
    && forall k :: |data| <= k < |b| ==> b2[Moved(head, k, |b|)] == b[Moved(head, k, |b|)]
  }

  lemma {:induction false} WroteKeeps(b: seq<Byte>, b2: seq<Byte>, head: nat, tail: nat, data: seq<Byte>)
    requires head < |b| && tail < |b| && Wrote(b, b2, head, data) && |Ring(b, head, tail)| + |data| < |b|
    ensures Ring(b2, head, tail) == Ring(b, head, tail)
  {
    var c, c2 := Ring(b, head, tail), Ring(b2, head, tail);
    forall i | 0 <= i < |c|
      ensures c2[i] == c[i]
    {
      RingAt(b, head, tail, i);
      RingAt(b2, head, tail, i);
      var k := |b| - |c| + i;
      assert Moved(head, k, |b|) == Moved(tail, i, |b|);
    }
  }

  /**
   * A frame that is checked for and written while a refusing reader has the tail moved on is in
   * the buffer behind what was there before, once the tail is back, if and only if it would
   * have fitted without the four bytes.
   */
  lemma {:induction false} RefusedRace(b: seq<Byte>, b2: seq<Byte>, head: nat, tail: nat, data: seq<Byte>)
    requires head < |b| && tail < |b| && PREFIX <= |Ring(b, head, tail)| && Moved(tail, PREFIX, |b|) < |b|
    requires 0 < |data| <= Space(|b|, head, Moved(tail, PREFIX, |b|)) && Wrote(b, b2, head, data)
    ensures Moved(head, |data|, |b|) < |b|
    ensures Ring(b2, Moved(head, |data|, |b|), tail) == Ring(b, head, tail) + data
       <==> |data| <= Space(|b|, head, tail)
  {
    Counted(b, head, tail);
    if |data| <= Space(|b|, head, tail) {
      WroteKeeps(b, b2, head, tail, data);
      HeadMoves(b2, head, tail, data);
    }
  }

  /** In a buffer of 11 bytes that holds a frame of 7, one more frame of 7 passes the check and ruins both. */
  lemma {:induction false} RefusedAndRuined(b: seq<Byte>, b2: seq<Byte>, data: seq<Byte>)
    requires |b| == 11 && |data| == 7 && Wrote(b, b2, 7, data)
    ensures Space(11, 7, 0) == 3 && Space(11, 7, Moved(0, PREFIX, 11)) == 7
    ensures |Ring(b, 7, 0)| == 7 && |Ring(b2, Moved(7, 7, 11), 0)| == 3
  {
  }

  predicate Initial(r: Shared) {
    && 0 < |r.b| && r.head == r.tail < |r.b| && r.put == Idle && r.get == Asleep
    && r.sent == [] && r.received == [] && r.queue == [] && r.taking == []
  }

  ghost predicate Run(states: seq<Shared>, moves: seq<Move>) {
    && |states| == |moves| + 1 && Initial(states[0])
    && forall i :: 0 <= i < |moves| ==> Follows(states[i], moves[i], states[i + 1])
  }

  ghost predicate Follows(r: Shared, mv: Move, q: Shared) {
    Shaped(r) && CanMove(r, mv) && q == Do(r, mv)
  }

  lemma {:induction false} InitialInv(r: Shared)
    requires Initial(r)
    ensures RingInv(r)
  {
    assert Ring(r.b, r.head, r.tail) == [];
    assert Layout(Abstract(r)) == [];
  }

  lemma {:induction false} RunInv(states: seq<Shared>, moves: seq<Move>, i: nat)
    requires Run(states, moves) && i <= |moves|
    ensures RingInv(states[i])
  {
    if i == 0 {
      InitialInv(states[0]);
    } else {
      RunInv(states, moves, i - 1);
      assert Follows(states[i - 1], moves[i - 1], states[i]);
      hide RingInv, Do;
      MoveInv(states[i - 1], moves[i - 1]);
    }
  }

  // ------------------------------------------------ what is sent is what the callers offer

  /** There is room for the frame of m between head and tail as they are. */
  predicate Fits(r: Shared, m: Message)
    requires r.head < |r.b| && r.tail < |r.b|
  {
    |Ring(r.b, r.head, r.tail)| + PREFIX + |m| < |r.b|
  }

  /** The message that the writer is in the middle of. */
  function Writing(r: Shared): seq<Message> {
    if r.put.Copying? then [r.put.m] else []
  }

  /** A check starts to write its message exactly if the frame fits; no other move starts one or changes it. */
  lemma {:induction false} StartsExactly(r: Shared, mv: Move)
    requires Shaped(r) && CanMove(r, mv)
    ensures var q := Do(r, mv);
            q.sent + Writing(q) == r.sent + Writing(r) + if mv.CheckSpace? && Fits(r, mv.m) then [mv.m] else []
  {
    hide Ring;
    Counted(r.b, r.head, r.tail);
  }

  /** The messages for which a check found room, in the order of the checks. */
  function Offered(states: seq<Shared>, moves: seq<Move>): seq<Message>
    requires |states| == |moves| + 1
    requires forall i :: 0 <= i < |moves| ==> states[i].head < |states[i].b| && states[i].tail < |states[i].b|
  {
    if moves == [] then []
    else
      var n := |moves| - 1;
      Offered(states[..n + 1], moves[..n])
      + if moves[n].CheckSpace? && Fits(states[n], moves[n].m) then [moves[n].m] else []
  }

  lemma {:induction false} OfferedSent(states: seq<Shared>, moves: seq<Move>)
    requires Run(states, moves)
    ensures forall i :: 0 <= i < |moves| ==> states[i].head < |states[i].b| && states[i].tail < |states[i].b|
    ensures var r := states[|moves|]; r.sent + Writing(r) == Offered(states, moves)
  {
    hide Do, CanMove, Fits;
    assert forall i :: 0 <= i < |moves| ==> Follows(states[i], moves[i], states[i + 1]);
    if moves != [] {
      var n := |moves| - 1;
      assert Run(states[..n + 1], moves[..n]);
      OfferedSent(states[..n + 1], moves[..n]);
      assert Follows(states[n], moves[n], states[n + 1]);
      StartsExactly(states[n], moves[n]);
    }
  }

  lemma {:induction false} FrameCount(s: State)
    requires Inv(s) && s.reader == Waiting
    ensures |s.c| > PREFIX <==> s.queue != []
  {
    var rest := if s.writer.Prefixed? then Prefix(|s.writer.m|) else [];
    assert s.c == Frames(s.queue) + rest;
    if s.queue != [] {
      FirstFrame(s.queue, rest);
    }
  }

  /**
   * A reader starts to read exactly if a complete message is in the buffer, learns exactly its
   * length, has no room for it exactly if it is longer than that, and is handed exactly it.
   */
  lemma {:induction false} ReadsExactly(r: Shared)
    requires RingInv(r)
    ensures r.get == Asleep ==> (Do(r, CountBytes).get.Getting? <==> r.queue != [])
    ensures r.get.Getting? && !r.get.body && |r.get.got| == PREFIX ==>
              && r.queue != [] && PrefixValue(r.get.got) == |r.queue[0]|
              && (CanMove(r, MoveTail) ==> Do(r, MoveTail).taking == [r.queue[0]])
              && forall room :: CanMove(r, Refuse(room)) <==> |r.queue[0]| > room
    ensures r.get.Getting? && r.get.body && CanMove(r, MoveTail) ==>
              |r.taking| == 1 && Do(r, MoveTail).received == r.received + [r.taking[0]]
  {
    hide Frames, Prefix, PrefixValue, Copied;
    var s := Abstract(r);
    Counted(r.b, r.head, r.tail);
    if r.get == Asleep {
      FrameCount(s);
    } else if r.get.Getting? && !r.get.body {
      var rest := if s.writer.Prefixed? then Prefix(|s.writer.m|) else [];
      assert s.c == Frames(s.queue) + rest;
      FirstFrame(s.queue, rest);
      PrefixRoundTrip(|s.queue[0]|);
    } else if r.get.Getting? && CanMove(r, MoveTail) {
      TakesWhole(r);
    }
  }

  /**
   * Neither side is ever stuck in the middle of a message: as long as bytes are missing it can
   * copy more of them, every copy brings it closer, and when none is missing its index can move.
   */
  lemma {:induction false} NeverStuck(r: Shared)
    requires RingInv(r)
    ensures r.put.Copying? ==>
              if r.put.copied == |Data(r.put)| then CanMove(r, MoveHead) else exists n :: CanMove(r, PutSome(n))
    ensures forall n :: CanMove(r, PutSome(n)) ==>
              n > 0 && Do(r, PutSome(n)).put == r.put.(copied := r.put.copied + n)
    ensures r.get.Getting? ==>
              if |r.get.got| == Want(r.get) then CanMove(r, MoveTail) else exists n :: CanMove(r, GetSome(n))
    ensures forall n :: CanMove(r, GetSome(n)) ==>
              && n > 0 && Do(r, GetSome(n)).get.Getting? && |Do(r, GetSome(n)).get.got| == |r.get.got| + n
  {
    hide Frames, Prefix, Copied, Ring;
    if r.put.Copying? && r.put.copied != |Data(r.put)| {
      assert Moved(r.head, r.put.copied, |r.b|) < |r.b|;
      assert CanMove(r, PutSome(1));
    }
    if r.get.Getting? {
      if |r.get.got| == Want(r.get) {
        assert !r.get.body ==> Want(r.get) == PREFIX;
      } else {
        assert Moved(r.tail, |r.get.got|, |r.b|) < |r.b|;
        assert CanMove(r, GetSome(1));
      }
    }
  }

  lemma {:induction false} TakesWhole(r: Shared)
    requires RingInv(r) && r.get.Getting? && r.get.body && |r.get.got| == Want(r.get)
    ensures |r.taking| == 1 && r.get.got == r.taking[0]
  {
    hide Frames, Prefix, Copied, Ring;
    var s, m := Abstract(r), r.taking[0];
    var rest := Frames(s.queue) + if s.writer.Prefixed? then Prefix(|s.writer.m|) else [];
    assert s.c == m + rest;
    assert s.c[..|m|] == m;
  }

  /**
   * However the looks, copies and index moves of one writer and one reader interleave on the
   * ring, the messages received are always the first of the messages sent, byte for byte, and
   * those are the messages that the writer's callers offered and that fitted; a frame that is
   * only half written or half read is never delivered, no message is lost, and what lies
   * between the indices is exactly the rest of the message being read, the complete frames and
   * perhaps the length of the one being written.
   */
  lemma {:induction false} ReceivedIsPrefix(states: seq<Shared>, moves: seq<Move>)
    requires Run(states, moves)
    ensures forall i :: 0 <= i <= |moves| ==> states[i].head < |states[i].b| && states[i].tail < |states[i].b|
    ensures var r := states[|moves|];
            && Shaped(r) && Inv(Abstract(r))
            && |r.received| <= |r.sent| && r.sent[..|r.received|] == r.received
            && r.sent + Writing(r) == Offered(states, moves)
            && r.received + r.taking + r.queue == r.sent
            && Ring(r.b, r.head, Start(r)) == Layout(Abstract(r))
  {
    RunInv(states, moves, |moves|);
    OfferedSent(states, moves);
    Prefixes(Abstract(states[|moves|]));
  }
}
