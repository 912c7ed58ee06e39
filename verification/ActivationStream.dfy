/** The growable activation stream: a buffer with a cursor, a high-water mark and an aligned clone. */
module ActivationStream {
  import opened Common

  datatype Hresult = S_OK | STG_E_READFAULT | STG_E_WRITEFAULT | STG_E_SEEKERROR | E_OUTOFMEMORY | E_FAIL

  const STREAM_SEEK_SET := 0
  const STREAM_SEEK_CUR := 1
  const STREAM_SEEK_END := 2
  const LONG_MIN := -0x8000_0000

  // Conversion of a result to the 32-bit types of the fields.
  function ToUlong(x: int): nat {
    x % 0x1_0000_0000
  }

  function ToLong(x: int): int {
    ToUlong(x + 0x8000_0000) - 0x8000_0000
  }

  // The state of a stream: the _cbData bytes of its buffer, _lOffset, _cSize and _fFree.
  datatype Stream = Stream(data: seq<Byte>, offset: int, size: int, owned: bool)

  predicate Sound(s: Stream) {
    && |s.data| <= ULONG_MAX
    && 0 <= s.offset <= Min(|s.data|, LONG_MAX)
    && 0 <= s.size <= Min(|s.data|, LONG_MAX)
  }

  lemma SoundBounds(s: Stream)
    requires Sound(s)
    ensures 0 <= s.offset <= |s.data| <= ULONG_MAX
  {
  }

  datatype Op =
    | Read(count: nat)
    | Write(bytes: seq<Byte>, memory: bool, slack: seq<Byte>) // slack: what a new buffer holds past the data
    | Seek(move: int, origin: nat)

  // The number of bytes that a read of `count` delivers.
  function ReadCount(s: Stream, count: nat): nat
    requires Sound(s)
  {
    Min(count, |s.data| - s.offset)
  }

  function ReadBytes(s: Stream, count: nat): seq<Byte>
    requires Sound(s)
  {
    s.data[s.offset..s.offset + ReadCount(s, count)]
  }

  function AfterRead(s: Stream, count: nat): Stream
    requires Sound(s)
  {
    s.(offset := ToLong(s.offset + ReadCount(s, count)))
  }

  predicate Fits(s: Stream, bytes: seq<Byte>)
    requires Sound(s)
  {
    |bytes| <= |s.data| - s.offset
  }

  function WriteResult(s: Stream, bytes: seq<Byte>, memory: bool): Hresult
    requires Sound(s)
  {
    if Fits(s, bytes) then S_OK
    else if 4 + |bytes| + s.offset + 64 > ULONG_MAX then E_OUTOFMEMORY
    else if !s.owned then STG_E_WRITEFAULT
    else if !memory then E_OUTOFMEMORY
    else S_OK
  }

  // The buffer after a successful write: a reallocated one ends in 64 bytes of slack.
  function Overwritten(s: Stream, bytes: seq<Byte>, slack: seq<Byte>): seq<Byte>
    requires Sound(s)
  {
    s.data[..s.offset] + bytes + if Fits(s, bytes) then s.data[s.offset + |bytes|..] else slack
  }

  function AfterWrite(s: Stream, bytes: seq<Byte>, memory: bool, slack: seq<Byte>): Stream
    requires Sound(s)
  {
    if WriteResult(s, bytes, memory) != S_OK then s
    else
      var offset := ToLong(s.offset + |bytes|);
      s.(data := Overwritten(s, bytes, slack), offset := offset, size := if s.size < offset then offset else s.size)
  }

  lemma OverwrittenIs(s: Stream, bytes: seq<Byte>, slack: seq<Byte>)
    requires Sound(s)
    ensures var r, end := Overwritten(s, bytes, slack), s.offset + |bytes|;
      && |r| == (if Fits(s, bytes) then |s.data| else end + |slack|)
      && (forall p :: 0 <= p < |s.data| && (p < s.offset || (end <= p && Fits(s, bytes))) ==> r[p] == s.data[p])
      && (forall p :: s.offset <= p < end ==> r[p] == bytes[p - s.offset])
  {
  }

  // The bytes go over a buffer that starts with the old data.
  lemma CopiedInto(s: Stream, bytes: seq<Byte>, slack: seq<Byte>, room: seq<Byte>, copied: seq<Byte>)
    requires Sound(s) && |copied| == |room|
    requires var end := s.offset + |bytes|;
      && end <= |room| && room[..s.offset] == s.data[..s.offset]
      && room[end..] == if Fits(s, bytes) then s.data[end..] else slack
    requires forall i :: 0 <= i < |room| ==>
      copied[i] == if s.offset <= i < s.offset + |bytes| then bytes[i - s.offset] else room[i]
    ensures copied == Overwritten(s, bytes, slack)
  {
    var end := s.offset + |bytes|;
    assert copied[..s.offset] == room[..s.offset] && copied[s.offset..end] == bytes && copied[end..] == room[end..];
    assert copied == copied[..s.offset] + copied[s.offset..end] + copied[end..];
  }

  // Where a seek is meant to go.
  function Target(s: Stream, move: int, origin: nat): int {
    move + if origin == STREAM_SEEK_CUR then s.offset else if origin == STREAM_SEEK_END then |s.data| else 0
  }

  function SeekResult(s: Stream, move: int, origin: nat): Hresult {
    if origin == STREAM_SEEK_SET then
      if move >= 0 then S_OK else STG_E_SEEKERROR
    else if origin == STREAM_SEEK_CUR then
      if move < 0 && ToLong(-move) > s.offset then STG_E_SEEKERROR else S_OK
    else if origin == STREAM_SEEK_END then
      if move < 0 && ToUlong(-move) > |s.data| then STG_E_SEEKERROR else S_OK
    else STG_E_SEEKERROR
  }

  function AfterSeek(s: Stream, move: int, origin: nat): Stream {
    if SeekResult(s, move, origin) != S_OK then s else s.(offset := ToLong(Target(s, move, origin)))
  }

  predicate IsLong(x: int) {
    LONG_MIN <= x <= LONG_MAX
  }

  /** An accepted seek lands, soundly, where it is meant to exactly when that place lies in the data
      and can be represented. A target before the start is refused, with one exception: a relative
      move by LONG_MIN, whose negation overflows, is accepted. */
  lemma SeekExact(s: Stream, move: int, origin: nat)
    requires Sound(s) && IsLong(move)
    ensures var t := Target(s, move, origin);
      && (SeekResult(s, move, origin) != S_OK <==>
            origin > 2 || (t < 0 && !(origin == STREAM_SEEK_CUR && move == LONG_MIN)))
      && (SeekResult(s, move, origin) != S_OK ==> AfterSeek(s, move, origin) == s)
      && (SeekResult(s, move, origin) == S_OK ==>
            (Sound(AfterSeek(s, move, origin)) && AfterSeek(s, move, origin).offset == t
             <==> 0 <= t <= Min(|s.data|, LONG_MAX)))
  {
    var t := Target(s, move, origin);
    Wraps(t);
    Wraps(-move);
  }

  /** Where accepted seeks land: n bytes after the start, after the cursor or before the end of the buffer, which is
      not the high-water mark. */
  lemma SeekLands(s: Stream, n: int)
    requires Sound(s) && |s.data| <= LONG_MAX && n >= 0
    ensures n <= |s.data| ==> AfterSeek(s, n, STREAM_SEEK_SET) == s.(offset := n)
    ensures s.offset + n <= |s.data| ==> AfterSeek(s, n, STREAM_SEEK_CUR) == s.(offset := s.offset + n)
    ensures n <= s.offset ==> AfterSeek(s, -n, STREAM_SEEK_CUR) == s.(offset := s.offset - n)
    ensures n <= |s.data| ==> AfterSeek(s, -n, STREAM_SEEK_END) == s.(offset := |s.data| - n)
  {
    hide ToLong, ToUlong;
    if n <= LONG_MAX {
      Wraps(n);
      WordsInRange(n);
      Wraps(s.offset - n);
      Wraps(s.offset + n);
      Wraps(|s.data| - n);
    }
  }

  lemma Wraps(x: int)
    requires -0x1_0000_0000 < x < 0x2_0000_0000
    ensures ToLong(x) == if x < LONG_MIN then x + 0x1_0000_0000
                         else if x <= LONG_MAX then x
                         else if x <= 0x1_7fff_ffff then x - 0x1_0000_0000 else x - 0x2_0000_0000
  {
  }

  lemma WordsInRange(x: nat)
    requires x <= ULONG_MAX
    ensures ToUlong(x) == x
  {
  }

  // A sum taken in 32 bits and read as a LONG.
  lemma WordSum(x: int, y: int)
    ensures ToLong(ToUlong(ToUlong(x) + y)) == ToLong(x + y)
  {
    WordTwice(x, y);
    WordTwice(x + y, 0x8000_0000);
  }

  lemma WordTwice(x: int, y: int)
    ensures ToUlong(ToUlong(x) + y) == ToUlong(x + y)
  {
  }

  lemma SeekPastTheEnd() returns (s: Stream)
    ensures Sound(s) && SeekResult(s, 1, STREAM_SEEK_SET) == S_OK && !Sound(AfterSeek(s, 1, STREAM_SEEK_SET))
  {
    s := Stream([], 0, 0, true);
  }

  /** A read leaves the stream sound exactly when its end can be represented as a LONG. */
  lemma ReadExact(s: Stream, count: nat)
    requires Sound(s)
    ensures Sound(AfterRead(s, count)) <==> s.offset + ReadCount(s, count) <= LONG_MAX
  {
  }

  /** A write leaves the stream sound exactly when it is refused or its end can be represented as
      a LONG; the buffer itself may be larger. */
  lemma WriteExact(s: Stream, bytes: seq<Byte>, memory: bool, slack: seq<Byte>)
    requires Sound(s) && |slack| == 64
    ensures Sound(AfterWrite(s, bytes, memory, slack)) <==>
      WriteResult(s, bytes, memory) != S_OK || s.offset + |bytes| <= LONG_MAX
  {
    if WriteResult(s, bytes, memory) == S_OK {
      assert |Overwritten(s, bytes, slack)| >= s.offset + |bytes|;
      if s.offset + |bytes| > LONG_MAX {
        assert ToLong(s.offset + |bytes|) < 0;
      }
    }
  }

  /** A write is granted exactly if it fits the buffer, or if the stream owns its buffer and memory for a larger one,
      of a size below 4 GB, is there; only a stream that does not own its buffer reports a fault. */
  lemma WriteGranted(s: Stream, bytes: seq<Byte>, memory: bool)
    requires Sound(s)
    ensures var end := s.offset + |bytes|;
      && (WriteResult(s, bytes, memory) == S_OK <==>
            end <= |s.data| || (s.owned && memory && end + 64 + 4 <= ULONG_MAX))
      && (WriteResult(s, bytes, memory) == STG_E_WRITEFAULT <==>
            end > |s.data| && !s.owned && end + 64 + 4 <= ULONG_MAX)
  {
  }

  // The state after several writes in a row, each with memory for a new buffer.
  function WriteAll(s: Stream, pieces: seq<(seq<Byte>, seq<Byte>)>): Stream
    requires Sound(s)
    decreases |pieces|
  {
    if pieces == [] then s
    else
      var r := AfterWrite(s, pieces[0].0, true, pieces[0].1);
      if Sound(r) then WriteAll(r, pieces[1..]) else r
  }

  function Concat(pieces: seq<(seq<Byte>, seq<Byte>)>): seq<Byte> {
    if pieces == [] then [] else pieces[0].0 + Concat(pieces[1..])
  }

  lemma WriteOne(s: Stream, bytes: seq<Byte>, slack: seq<Byte>)
    requires Sound(s) && s.owned && |slack| == 64 && s.offset + |bytes| <= LONG_MAX
    ensures var r, end := AfterWrite(s, bytes, true, slack), s.offset + |bytes|;
      && Sound(r) && r.owned && r.offset == end
      && r.data[..s.offset] == s.data[..s.offset] && r.data[s.offset..end] == bytes
  {
    hide Overwritten;
    WriteGranted(s, bytes, true);
    WriteExact(s, bytes, true, slack);
    Wraps(s.offset + |bytes|);
    OverwrittenIs(s, bytes, slack);
  }

  lemma JoinSlices(data: seq<Byte>, a: nat, b: nat, c: nat)
    requires a <= b <= c <= |data|
    ensures data[a..c] == data[a..b] + data[b..c] && data[..b][a..] == data[a..b] && data[..b][..a] == data[..a]
  {
  }

  lemma {:induction false} WriteAllWrites(s: Stream, pieces: seq<(seq<Byte>, seq<Byte>)>)
    requires Sound(s) && s.owned && s.offset + |Concat(pieces)| <= LONG_MAX
    requires forall i :: 0 <= i < |pieces| ==> |pieces[i].1| == 64
    ensures var r, end := WriteAll(s, pieces), s.offset + |Concat(pieces)|;
      && Sound(r) && r.owned && r.offset == end
      && r.data[..s.offset] == s.data[..s.offset] && r.data[s.offset..end] == Concat(pieces)
    decreases |pieces|
  {
    hide Sound, AfterWrite;
    SoundBounds(s);
    if pieces != [] {
      var bytes, r, t := pieces[0].0, AfterWrite(s, pieces[0].0, true, pieces[0].1), WriteAll(s, pieces);
      WriteOne(s, bytes, pieces[0].1);
      WriteAllWrites(r, pieces[1..]);
      SoundBounds(r);
      SoundBounds(t);
      JoinSlices(t.data, s.offset, r.offset, t.offset);
      JoinSlices(r.data, s.offset, r.offset, r.offset);
    }
  }

  /** The growable stream, from its constructor on: with memory granted, whatever is written in however many pieces,
      growing the buffer as often as it takes, is read back as one after a seek to the start. */
  lemma PiecesAreReadBack(room: seq<Byte>, pieces: seq<(seq<Byte>, seq<Byte>)>)
    requires |room| <= ULONG_MAX && |Concat(pieces)| <= LONG_MAX
    requires forall i :: 0 <= i < |pieces| ==> |pieces[i].1| == 64
    ensures var r := AfterSeek(WriteAll(Stream(room, 0, 0, true), pieces), 0, STREAM_SEEK_SET);
      Sound(r) && ReadBytes(r, |Concat(pieces)|) == Concat(pieces)
  {
    var s := Stream(room, 0, 0, true);
    WriteAllWrites(s, pieces);
    SeekExact(WriteAll(s, pieces), 0, STREAM_SEEK_SET);
  }

  // The reference: the last value written at each position, a cursor, the end of the buffer and
  // the largest end of a write.
  datatype File = File(written: map<nat, Byte>, cursor: nat, limit: nat, high: nat)

  ghost predicate Simulates(s: Stream, f: File) {
    && Sound(s) && s.offset == f.cursor && |s.data| == f.limit && s.size == f.high
    && forall p :: p in f.written ==> p < f.high && s.data[p] == f.written[p]
  }

  function Put(m: map<nat, Byte>, at: nat, bytes: seq<Byte>): (r: map<nat, Byte>)
    ensures forall p :: p in r <==> p in m || at <= p < at + |bytes|
    ensures forall p :: p in r ==> r[p] == if at <= p < at + |bytes| then bytes[p - at] else m[p]
    decreases |bytes|
  {
    if bytes == [] then m else Put(m[at := bytes[0]], at + 1, bytes[1..])
  }

  function FileStep(f: File, op: Op, ok: bool): File {
    match op
    case Read(count) =>
      if f.cursor <= f.limit then f.(cursor := f.cursor + Min(count, f.limit - f.cursor)) else f
    case Write(bytes, _, _) =>
      var end := f.cursor + |bytes|;
      if !ok then f
      else File(Put(f.written, f.cursor, bytes), end, if end <= f.limit then f.limit else end + 64,
                if f.high < end then end else f.high)
    case Seek(move, origin) =>
      var target := move + if origin == STREAM_SEEK_CUR then f.cursor
                           else if origin == STREAM_SEEK_END then f.limit else 0;
      if ok && target >= 0 then f.(cursor := target) else f
  }

  function OpResult(s: Stream, op: Op): Hresult
    requires Sound(s)
  {
    match op
    case Read(count) => if count > |s.data| - s.offset then STG_E_READFAULT else S_OK
    case Write(bytes, memory, _) => WriteResult(s, bytes, memory)
    case Seek(move, origin) => SeekResult(s, move, origin)
  }

  function Step(s: Stream, op: Op): Stream
    requires Sound(s)
  {
    match op
    case Read(count) => AfterRead(s, count)
    case Write(bytes, memory, slack) => AfterWrite(s, bytes, memory, slack)
    case Seek(move, origin) => AfterSeek(s, move, origin)
  }

  // A call of the stream as the class's callers make it: transfers that end below 2 GB and seeks
  // that stay within the data or are refused.
  predicate Admissible(s: Stream, op: Op)
    requires Sound(s)
  {
    match op
    case Read(count) => s.offset + ReadCount(s, count) <= LONG_MAX
    case Write(bytes, _, slack) => |slack| == 64 && s.offset + |bytes| <= LONG_MAX
    case Seek(move, origin) =>
      IsLong(move) && (SeekResult(s, move, origin) == S_OK ==> 0 <= Target(s, move, origin) <= Min(|s.data|, LONG_MAX))
  }

  lemma WriteSimulates(s: Stream, f: File, bytes: seq<Byte>, memory: bool, slack: seq<Byte>)
    requires Simulates(s, f) && |slack| == 64 && s.offset + |bytes| <= LONG_MAX
    requires WriteResult(s, bytes, memory) == S_OK
    ensures Simulates(AfterWrite(s, bytes, memory, slack), FileStep(f, Write(bytes, memory, slack), true))
  {
    hide Put, Overwritten, ToLong, WriteResult;
    WriteExact(s, bytes, memory, slack);
    Wraps(s.offset + |bytes|);
    var s', f' := AfterWrite(s, bytes, memory, slack), FileStep(f, Write(bytes, memory, slack), true);
    OverwrittenIs(s, bytes, slack);
    forall p | p in f'.written ensures p < f'.high && s'.data[p] == f'.written[p] {
      assert p in f.written || f.cursor <= p < f.cursor + |bytes|;
    }
  }

  lemma StepSimulates(s: Stream, f: File, op: Op)
    requires Simulates(s, f) && Admissible(s, op)
    ensures Simulates(Step(s, op), FileStep(f, op, OpResult(s, op) == S_OK))
  {
    match op
    case Read(count) => ReadExact(s, count);
    case Write(bytes, memory, slack) =>
      if WriteResult(s, bytes, memory) == S_OK { WriteSimulates(s, f, bytes, memory, slack); }
    case Seek(move, origin) => SeekExact(s, move, origin);
  }

  // A run of the stream beside its reference; it stops at the first inadmissible call.
  function Run(s: Stream, f: File, ops: seq<Op>): (Stream, File)
    requires Sound(s)
    decreases |ops|
  {
    if ops == [] || !Admissible(s, ops[0]) || !Sound(Step(s, ops[0])) then (s, f)
    else Run(Step(s, ops[0]), FileStep(f, ops[0], OpResult(s, ops[0]) == S_OK), ops[1..])
  }

  /** After any run, every byte written still has its last-written value, through every
      reallocation; the cursor lies in the data and the high-water mark covers every write. */
  lemma {:induction false} RunSimulates(s: Stream, f: File, ops: seq<Op>)
    requires Simulates(s, f)
    ensures Simulates(Run(s, f, ops).0, Run(s, f, ops).1)
    decreases |ops|
  {
    if ops != [] && Admissible(s, ops[0]) {
      StepSimulates(s, f, ops[0]);
      RunSimulates(Step(s, ops[0]), FileStep(f, ops[0], OpResult(s, ops[0]) == S_OK), ops[1..]);
    }
  }

  // A run of calls that the class's callers may make, with memory always granted.
  ghost predicate Granted(s: Stream, ops: seq<Op>)
    requires Sound(s)
    decreases |ops|
  {
    ops == [] ||
    (Admissible(s, ops[0]) && (ops[0].Write? ==> ops[0].memory)
     && Sound(Step(s, ops[0])) && Granted(Step(s, ops[0]), ops[1..]))
  }

  ghost predicate WritesSucceed(s: Stream, ops: seq<Op>)
    requires Sound(s)
    decreases |ops|
  {
    ops == [] ||
    ((ops[0].Write? ==> OpResult(s, ops[0]) == S_OK)
     && Sound(Step(s, ops[0])) && WritesSucceed(Step(s, ops[0]), ops[1..]))
  }

  /** No write of such a run to a stream that owns its buffer fails. */
  lemma {:induction false} GrantedWritesSucceed(s: Stream, ops: seq<Op>)
    requires Sound(s) && s.owned && Granted(s, ops)
    ensures WritesSucceed(s, ops)
    decreases |ops|
  {
    if ops != [] {
      if ops[0].Write? { WriteGranted(s, ops[0].bytes, true); }
      GrantedWritesSucceed(Step(s, ops[0]), ops[1..]);
    }
  }

  /** A read delivers the last-written value of every byte it covers that was ever written. */
  lemma ReadDeliversLastWritten(s: Stream, f: File, count: nat, i: nat)
    requires Simulates(s, f) && i < |ReadBytes(s, count)| && f.cursor + i in f.written
    ensures ReadBytes(s, count)[i] == f.written[f.cursor + i]
  {
  }

  /** What a write stores is what a read from the same place returns. */
  lemma ReadBack(s: Stream, bytes: seq<Byte>, memory: bool, slack: seq<Byte>)
    requires Sound(s) && |slack| == 64 && s.offset + |bytes| <= LONG_MAX
    requires WriteResult(s, bytes, memory) == S_OK
    ensures var t := AfterSeek(AfterWrite(s, bytes, memory, slack), s.offset, STREAM_SEEK_SET);
      Sound(t) && t.offset == s.offset && ReadBytes(t, |bytes|) == bytes
  {
    WriteExact(s, bytes, memory, slack);
    SeekExact(AfterWrite(s, bytes, memory, slack), s.offset, STREAM_SEEK_SET);
  }

  predicate IsPowerOfTwo(n: nat) {
    n == 1 || (n > 1 && n % 2 == 0 && IsPowerOfTwo(n / 2))
  }

  // Bitwise and.
  function And(x: nat, y: nat): (r: nat)
    ensures r <= x && r <= y
  {
    if x == 0 || y == 0 then 0 else 2 * And(x / 2, y / 2) + if x % 2 == 1 && y % 2 == 1 then 1 else 0
  }

  // How far past the plain copy the clone puts the bytes, for a buffer at `address`: the bits of the cursor's
  // address below the alignment, complemented.
  function AlignmentOffset(address: nat, offset: nat, align: nat): (shift: nat)
    requires align > 0
    ensures shift < align
  {
    var low := And(address + offset, align - 1);
    if low != 0 then align - low else 0
  }

  // Whether the copy of n bytes, moved by the alignment offset, stays inside a buffer whose size
  // is the ULONG n + align - 1.
  predicate CopyFits(n: nat, address: nat, offset: nat, align: nat)
    requires align > 0
  {
    AlignmentOffset(address, offset, align) + n <= ToUlong(n + align - 1)
  }

  /** The enlarged buffer is large enough for every address exactly when its size does not wrap. */
  lemma CloneFitsExactly(n: nat, offset: nat, align: nat)
    requires 0 < align <= ULONG_MAX && n <= ULONG_MAX
    ensures (forall address: nat :: CopyFits(n, address, offset, align)) <==> n + align - 1 <= ULONG_MAX
  {
    if n + align - 1 > ULONG_MAX {
      assert ToUlong(n + align - 1) == n + align - 1 - 0x1_0000_0000 < n;
      assert !CopyFits(n, 0, offset, align);
    } else {
      forall address: nat ensures CopyFits(n, address, offset, align) {
        assert AlignmentOffset(address, offset, align) < align;
      }
    }
  }

  // The clone t of s, its cursor moved to the given place: everything from the cursor on follows it, and its
  // fields are sound exactly if the cursor can be represented as a LONG.
  ghost predicate IsClone(s: Stream, t: Stream, cursor: nat, align: nat) {
    && |t.data| + 1 == |s.data| + align && t.owned
    && 0 <= s.offset <= |s.data| && cursor + (|s.data| - s.offset) <= |t.data|
    && t.data[cursor..cursor + (|s.data| - s.offset)] == s.data[s.offset..]
    && t.offset == ToLong(cursor) && t.size == (if cursor <= LONG_MAX then cursor else 0)
    && (Sound(t) <==> cursor <= LONG_MAX)
  }

  lemma CopiedTail(data: seq<Byte>, target: seq<Byte>, at: nat, from: nat)
    requires from <= |data| && at + |data| <= |target|
    requires forall i :: 0 <= i < |data| ==> target[at + i] == data[i]
    ensures target[at + from..at + |data|] == data[from..]
  {
  }

  lemma FilledIsClone(s: Stream, t: Stream, shift: nat, align: nat)
    requires Sound(s) && |t.data| + 1 == |s.data| + align <= ULONG_MAX + 1 && t.owned && shift < align
    requires t.offset == ToLong(s.offset + shift) && t.size == if t.offset < 0 then 0 else t.offset
    requires forall i :: 0 <= i < |s.data| ==> t.data[shift + i] == s.data[i]
    ensures IsClone(s, t, s.offset + shift, align)
  {
    Wraps(s.offset + shift);
    CopiedTail(s.data, t.data, shift, s.offset);
  }

  function Times(q: nat, n: nat): nat {
    q * n
  }

  ghost predicate IsMultiple(x: nat, n: nat) {
    exists q: nat :: Times(q, n) == x
  }

  /** Masking with a power of two less one leaves the remainder. */
  lemma {:induction false} MaskIsRemainder(x: nat, n: nat) returns (q: nat)
    requires IsPowerOfTwo(n)
    ensures x == Times(q, n) + And(x, n - 1)
  {
    if n == 1 {
      q := x;
    } else {
      q := MaskIsRemainder(x / 2, n / 2);
      MaskStep(x, n / 2);
      TimesTwice(q, n / 2);
    }
  }

  lemma MaskStep(x: nat, m: nat)
    requires m > 0
    ensures And(x, 2 * m - 1) == 2 * And(x / 2, m - 1) + x % 2
  {
    assert (2 * m - 1) / 2 == m - 1;
  }

  lemma TimesTwice(q: nat, m: nat)
    ensures Times(q, 2 * m) == 2 * Times(q, m)
  {
  }

  lemma TimesNext(q: nat, n: nat)
    ensures Times(q + 1, n) == Times(q, n) + n
  {
  }

  lemma {:induction false} AndSelf(x: nat)
    ensures And(x, x) == x
  {
    if x > 0 {
      AndSelf(x / 2);
    }
  }

  // Only a power of two has no bit in common with its predecessor.
  lemma {:induction false} PowerByMask(n: nat)
    requires n > 0
    ensures And(n, n - 1) == 0 <==> IsPowerOfTwo(n)
  {
    if n % 2 == 0 {
      PowerByMask(n / 2);
      assert (n - 1) / 2 == n / 2 - 1;
    } else if n > 1 {
      AndSelf(n / 2);
      assert (n - 1) / 2 == n / 2;
    }
  }

  lemma AlignedCursor(address: nat, offset: nat, align: nat)
    requires IsPowerOfTwo(align)
    ensures IsMultiple(address + offset + AlignmentOffset(address, offset, align), align)
  {
    hide And, Times, IsPowerOfTwo;
    var a := address + offset;
    var q := MaskIsRemainder(a, align);
    if And(a, align - 1) == 0 {
      assert Times(q, align) == a;
    } else {
      TimesNext(q, align);
    }
  }

  lemma NoMultipleBetween(x: nat, n: nat)
    requires n < x < 2 * n
    ensures !IsMultiple(x, n)
  {
    forall q: nat ensures Times(q, n) != x {
      if q >= 2 {
        assert Times(q, n) == Times(q - 2, n) + 2 * n;
      }
    }
  }

  /** The shifted cursor is a multiple of the alignment at every address if and only if the alignment is a power
      of two. */
  lemma AlignedExactly(align: nat)
    requires align > 0
    ensures (forall address: nat, offset: nat ::
              IsMultiple(address + offset + AlignmentOffset(address, offset, align), align)) <==> IsPowerOfTwo(align)
  {
    if IsPowerOfTwo(align) {
      forall address: nat, offset: nat
        ensures IsMultiple(address + offset + AlignmentOffset(address, offset, align), align)
      {
        AlignedCursor(address, offset, align);
      }
    } else {
      PowerByMask(align);
      NoMultipleBetween(align + AlignmentOffset(align, 0, align), align);
    }
  }

  class ActivationStream {
    var data: array<Byte>    // the _cbData bytes after the length field of _pifData
    var address: nat         // where they are in memory
    var lOffset: int
    var cSize: int
    var fFree: bool          // the stream owns its buffer
    var copyAlignment: nat

    ghost function View(): Stream
      reads this, data
    {
      Stream(data[..], lOffset, cSize, fFree)
    }

    ghost predicate Valid()
      reads this, data
    {
      Sound(View()) && 0 < copyAlignment <= ULONG_MAX
    }

    // A stream with a buffer of its own; without memory for it the stream is empty.
    constructor (ulMaxSize: nat, at: nat, memory: bool)
      requires ulMaxSize <= ULONG_MAX
      ensures Valid() && fresh(data) && lOffset == 0 && cSize == 0 && fFree && copyAlignment == 1
      ensures data.Length == (if memory then ulMaxSize else 0) && address == at
    {
      data := new Byte[if memory then ulMaxSize else 0];
      address, lOffset, cSize, fFree, copyAlignment := at, 0, 0, true, 1;
    }

    method SetCopyAlignment(alignment: nat)
      requires Valid() && 0 < alignment <= ULONG_MAX
      modifies this`copyAlignment
      ensures Valid() && copyAlignment == alignment && View() == old(View())
    {
      copyAlignment := alignment;
    }

    method Read(count: nat) returns (hr: Hresult, bytes: seq<Byte>)
      requires Valid() && count <= ULONG_MAX
      modifies this`lOffset
      ensures View() == AfterRead(old(View()), count) && bytes == ReadBytes(old(View()), count)
      ensures hr == OpResult(old(View()), Op.Read(count))
      ensures hr == (if |bytes| == count then S_OK else STG_E_READFAULT)
      ensures |bytes| == Min(count, data.Length - old(lOffset))
    {
      hr := S_OK;
      var cb := count;
      if cb > ToUlong(data.Length - lOffset) {
        cb := ToUlong(data.Length - lOffset);
        hr := STG_E_READFAULT;
      }
      bytes := data[lOffset..lOffset + cb];
      lOffset := ToLong(lOffset + cb);
    }

    method Write(bytes: seq<Byte>, at: nat, memory: bool) returns (hr: Hresult, ghost slack: seq<Byte>)
      requires Valid() && |bytes| <= ULONG_MAX
      modifies this`data, this`address, this`lOffset, this`cSize, data
      ensures fresh(data) || (data == old(data) && address == old(address))
      ensures !old(fFree) ==> data == old(data)
      ensures hr == WriteResult(old(View()), bytes, memory) && |slack| == 64
      ensures View() == AfterWrite(old(View()), bytes, memory, slack)
    {
      hide Overwritten, Sound, ToUlong, ToLong;
      SoundBounds(View());
      WordsInRange(data.Length - lOffset);
      slack := seq(64, _ => 0);
      hr := S_OK;
      ghost var s := View();
      if |bytes| > ToUlong(data.Length - lOffset) {
        var cbReq := 4 + |bytes| + lOffset + 64;
        if cbReq > ULONG_MAX { return E_OUTOFMEMORY, slack; }
        if !fFree { return STG_E_WRITEFAULT, slack; }
        if !memory { return E_OUTOFMEMORY, slack; }
        var grown := new Byte[|bytes| + lOffset + 64];
        forall i | 0 <= i < data.Length { grown[i] := data[i]; }
        data, address := grown, at;
        slack := data[lOffset + |bytes|..];
      }
      ghost var room := data[..];
      forall i | 0 <= i < |bytes| { data[lOffset + i] := bytes[i]; }
      CopiedInto(s, bytes, slack, room, data[..]);
      lOffset := ToLong(lOffset + |bytes|);
      if cSize < lOffset { cSize := lOffset; }
    }

    // `move` is the low part of the caller's displacement, read as a LONG.
    method Seek(move: int, origin: nat) returns (hr: Hresult, position: nat)
      requires Valid() && IsLong(move)
      modifies this`lOffset
      ensures hr == SeekResult(old(View()), move, origin) && View() == AfterSeek(old(View()), move, origin)
      ensures position == ToUlong(lOffset)
    {
      hr := S_OK;
      if origin == STREAM_SEEK_SET {
        if move >= 0 { lOffset := move; } else { hr := STG_E_SEEKERROR; }
      } else if origin == STREAM_SEEK_CUR {
        if !(move < 0 && ToLong(-move) > lOffset) {
          lOffset := ToLong(lOffset + move);
        } else {
          hr := STG_E_SEEKERROR;
        }
      } else if origin == STREAM_SEEK_END {
        if !(move < 0 && ToUlong(-move) > data.Length) {
          lOffset := ToLong(data.Length + move);
        } else {
          hr := STG_E_SEEKERROR;
        }
      } else {
        hr := STG_E_SEEKERROR;
      }
      position := ToUlong(lOffset);
    }

    method GetCopy(target: array<Byte>, at: nat)
      requires target != data && (data.Length > 0 ==> at + data.Length <= target.Length)
      modifies target
      ensures forall i :: 0 <= i < target.Length ==>
        target[i] == if at <= i < at + data.Length then data[i - at] else old(target[i])
    {
      forall i | 0 <= i < data.Length { target[at + i] := data[i]; }
    }

    method SetPosition(lenFromEnd: nat, posFromStart: nat) returns (hr: Hresult)
      modifies this`lOffset, this`cSize
      ensures hr == if posFromStart > lenFromEnd then E_FAIL else S_OK
      ensures hr == E_FAIL ==> unchanged(this)
      ensures hr == S_OK ==>
        && lOffset == ToLong(data.Length - lenFromEnd + posFromStart)
        && cSize == if old(cSize) < lOffset then lOffset else old(cSize)
    {
      hide ToLong, ToUlong;
      if posFromStart > lenFromEnd { return E_FAIL; }
      WordSum(data.Length - lenFromEnd, posFromStart);
      lOffset := ToLong(ToUlong(ToUlong(data.Length - lenFromEnd) + posFromStart));
      if cSize < lOffset { cSize := lOffset; }
      return S_OK;
    }

    /** For a power of two the clone's cursor is aligned; everything from the original's cursor on follows it. */
    method Clone(at: nat, objectMemory: bool, bufferMemory: bool) returns (strm: ActivationStream?)
      requires Valid() && data.Length + copyAlignment - 1 <= ULONG_MAX
      ensures strm == null <==> !objectMemory || (!bufferMemory && data.Length != 0)
      ensures strm != null ==> fresh(strm) && fresh(strm.data) && strm.copyAlignment == 1
      ensures strm != null && !bufferMemory ==> strm.View() == Stream([], 0, 0, true)
      ensures strm != null && bufferMemory ==>
        var cursor := lOffset + AlignmentOffset(strm.address, lOffset, copyAlignment);
        && IsClone(View(), strm.View(), cursor, copyAlignment)
        && (IsPowerOfTwo(copyAlignment) ==> IsMultiple(strm.address + cursor, copyAlignment))
    {
      hide And, AlignmentOffset, IsPowerOfTwo, IsMultiple, ToLong, Sound, IsClone;
      SoundBounds(View());
      if !objectMemory { return null; }
      strm := new ActivationStream(data.Length + copyAlignment - 1, at, bufferMemory);
      if data.Length != 0 && strm.data.Length == 0 { return null; }
      var len := strm.data.Length;
      if IsPowerOfTwo(copyAlignment) {
        AlignedCursor(strm.address, lOffset, copyAlignment);
      }
      var alignmentOffset := AlignmentOffset(strm.address, lOffset, copyAlignment);
      FillClone(strm, len, alignmentOffset);
    }

    // The copy and the cursor of the clone, both moved by the alignment offset. Without memory for it the
    // clone of an empty stream has no buffer.
    method FillClone(strm: ActivationStream, len: nat, shift: nat)
      requires Valid() && strm != this && strm.data != data && shift < copyAlignment
      requires strm.lOffset == 0 == strm.cSize && strm.fFree && len == strm.data.Length <= ULONG_MAX
      requires len + 1 == data.Length + copyAlignment || len == data.Length == 0
      modifies strm`lOffset, strm`cSize, strm.data
      ensures len == 0 ==> strm.View() == Stream([], 0, 0, true)
      ensures len + 1 == data.Length + copyAlignment ==> IsClone(View(), strm.View(), lOffset + shift, copyAlignment)
    {
      hide ToLong, ToUlong, Sound, IsClone;
      Wraps(0);
      SoundBounds(View());
      GetCopy(strm.data, shift);
      var hr := strm.SetPosition(len, lOffset + shift);
      if len + 1 == data.Length + copyAlignment {
        FilledIsClone(View(), strm.View(), shift, copyAlignment);
      }
    }
  }
}
