/** The fixed debug text buffer: insertions, flushes, snapshots and reverts. */
module TextBuffer {
  import opened Common

  const BUFFER_SIZE := 1024
  const FLUSH_WRAP := 0x1_0000

  // m_szBuffer has one cell more than BUFFER_SIZE; a flush of a full buffer writes one past that.
  const CELLS := BUFFER_SIZE + 2

  /** The buffer, its position, the flushes since construction and what the output functions received. */
  datatype State = State(cells: seq<Byte>, pos: nat, flushes: nat, emitted: seq<Byte>)

  datatype BufferContext = BufferContext(pos: nat, ref: nat)

  ghost predicate Valid(s: State) {
    |s.cells| == CELLS && s.pos < BUFFER_SIZE
  }

  function Pending(s: State): seq<Byte>
    requires s.pos <= |s.cells|
  {
    s.cells[..s.pos]
  }

  function Output(s: State): seq<Byte>
    requires s.pos <= |s.cells|
  {
    s.emitted + Pending(s)
  }

  // The string that starts at the first cell, up to its NUL.
  function CString(cells: seq<Byte>): seq<Byte> {
    if cells == [] || cells[0] == 0 then [] else [cells[0]] + CString(cells[1..])
  }

  ghost predicate NoNul(text: seq<Byte>) {
    forall i :: 0 <= i < |text| ==> text[i] != 0
  }

  // Flush puts its NUL one cell after the position, not at it.
  function Flushed(s: State): State
    requires |s.cells| == CELLS && s.pos <= BUFFER_SIZE
  {
    var cells := s.cells[s.pos + 1 := 0];
    State(cells, 0, s.flushes + 1, s.emitted + CString(cells))
  }

  function PutChar(s: State, c: Byte): (r: State)
    requires Valid(s)
    ensures Valid(r)
  {
    var put := s.(cells := s.cells[s.pos := c], pos := s.pos + 1);
    if put.pos == BUFFER_SIZE then Flushed(put) else put
  }

  function PutBytes(s: State, text: seq<Byte>): (r: State)
    requires Valid(s)
    ensures Valid(r)
    decreases |text|
  {
    if text == [] then s else PutBytes(PutChar(s, text[0]), text[1..])
  }

  // A string insertion also leaves its NUL at the position.
  function PutString(s: State, text: seq<Byte>): (r: State)
    requires Valid(s)
    ensures Valid(r)
  {
    var put := PutBytes(s, text);
    put.(cells := put.cells[put.pos := 0])
  }

  function SnapShot(s: State): BufferContext {
    BufferContext(s.pos, s.flushes % FLUSH_WRAP)
  }

  predicate CanRevert(s: State, bc: BufferContext) {
    bc.ref == s.flushes % FLUSH_WRAP && bc.pos < BUFFER_SIZE
  }

  function Reverted(s: State, bc: BufferContext): (r: State)
    requires Valid(s)
    ensures Valid(r)
  {
    if CanRevert(s, bc) then s.(pos := bc.pos, cells := s.cells[bc.pos + 1 := 0]) else s
  }

  lemma {:induction false} CStringUpTo(cells: seq<Byte>, n: nat)
    requires n < |cells| && NoNul(cells[..n])
    ensures CString(cells) == cells[..n] + CString(cells[n..])
  {
    if n > 0 {
      assert cells[0] == cells[..n][0] && cells[1..][..n - 1] == cells[..n][1..];
      CStringUpTo(cells[1..], n - 1);
      assert cells[1..][n - 1..] == cells[n..];
    }
  }

  lemma {:induction false} CStringHasNoNul(cells: seq<Byte>)
    ensures NoNul(CString(cells))
  {
    if cells != [] && cells[0] != 0 {
      CStringHasNoNul(cells[1..]);
    }
  }

  lemma SameTail(a: seq<Byte>, b: seq<Byte>, c: seq<Byte>)
    ensures a + b == a + c <==> b == c
  {
    assert b == (a + b)[|a|..] && c == (a + c)[|a|..];
  }

  /** A flush emits exactly the pending bytes if and only if none of them is NUL and the byte left at the
      position by earlier insertions is NUL; otherwise a stale byte follows the text or a NUL cuts it. */
  lemma FlushIsExact(s: State)
    requires |s.cells| == CELLS && s.pos <= BUFFER_SIZE
    ensures Flushed(s).emitted == Output(s) <==> NoNul(Pending(s)) && s.cells[s.pos] == 0
    ensures NoNul(Pending(s)) && s.cells[s.pos] != 0 ==> Flushed(s).emitted == Output(s) + [s.cells[s.pos]]
  {
    var cells := s.cells[s.pos + 1 := 0];
    assert cells[..s.pos] == Pending(s);
    CStringHasNoNul(cells);
    if NoNul(Pending(s)) {
      CStringUpTo(cells, s.pos);
      var rest := cells[s.pos..];
      assert rest[0] == s.cells[s.pos] && rest[1] == 0;
      assert CString(rest[1..]) == [];
      assert CString(rest) == if s.cells[s.pos] == 0 then [] else [s.cells[s.pos]];
      assert Flushed(s).emitted == s.emitted + (Pending(s) + CString(rest)) == Output(s) + CString(rest);
    } else {
      SameTail(s.emitted, CString(cells), Pending(s));
    }
  }

  // A buffer between calls that holds no NUL among its pending bytes, as the constructor leaves it.
  ghost predicate Clean(s: State) {
    Valid(s) && NoNul(Pending(s))
  }

  // The flush that filling triggers is exact exactly if the cell after the last one, which neither the
  // constructor nor an insertion writes, holds a NUL.
  function Stale(s: State): seq<Byte>
    requires |s.cells| == CELLS
  {
    if s.cells[BUFFER_SIZE] == 0 then [] else [s.cells[BUFFER_SIZE]]
  }

  /** One byte: without filling the buffer it becomes pending; filling it outputs all BUFFER_SIZE bytes and,
      if the last cell does not hold a NUL, that cell as well. */
  lemma PutCharOutputs(s: State, c: Byte)
    requires Clean(s) && c != 0
    ensures var r := PutChar(s, c);
      && Clean(r) && r.cells[BUFFER_SIZE] == s.cells[BUFFER_SIZE]
      && (s.pos + 1 < BUFFER_SIZE ==>
            && r.flushes == s.flushes && r.emitted == s.emitted
            && Pending(r) == Pending(s) + [c] && Output(r) == Output(s) + [c])
      && (s.pos + 1 == BUFFER_SIZE ==>
            r.flushes == s.flushes + 1 && Pending(r) == [] && r.emitted == Output(r) == Output(s) + [c] + Stale(s))
  {
    var put := s.(cells := s.cells[s.pos := c], pos := s.pos + 1);
    assert Pending(put) == Pending(s) + [c];
    assert Output(put) == Output(s) + [c];
    if put.pos == BUFFER_SIZE {
      FlushIsExact(put);
      assert put.cells[put.pos] == s.cells[BUFFER_SIZE];
    }
  }

  // Insertions that never fill the buffer, or fill it with a NUL in the last cell.
  predicate Conserves(s: State, n: nat)
    requires |s.cells| == CELLS
  {
    s.pos + n < BUFFER_SIZE || s.cells[BUFFER_SIZE] == 0
  }

  /** The output grows by the bytes inserted and by one stray byte for each flush on the way, unless the last
      cell holds a NUL. */
  lemma {:induction false} PutBytesCounts(s: State, bytes: seq<Byte>)
    requires Clean(s) && NoNul(bytes)
    ensures var r := PutBytes(s, bytes);
      && Clean(r) && r.cells[BUFFER_SIZE] == s.cells[BUFFER_SIZE]
      && s.pos + |bytes| == BUFFER_SIZE * (r.flushes - s.flushes) + r.pos
      && |Output(r)| == |Output(s)| + |bytes| + if s.cells[BUFFER_SIZE] == 0 then 0 else r.flushes - s.flushes
    decreases |bytes|
  {
    if bytes != [] {
      PutCharOutputs(s, bytes[0]);
      PutBytesCounts(PutChar(s, bytes[0]), bytes[1..]);
    }
  }

  lemma PutBytesUnfolds(s: State, bytes: seq<Byte>)
    requires Valid(s) && bytes != []
    ensures PutBytes(s, bytes) == PutBytes(PutChar(s, bytes[0]), bytes[1..])
  {
  }

  lemma Regroup(output: seq<Byte>, bytes: seq<Byte>)
    requires bytes != []
    ensures output + [bytes[0]] + bytes[1..] == output + bytes
  {
  }

  /** Insertions lose, repeat and reorder nothing, however often they fill the buffer, if and only if no flush on
      the way finds a stray byte in the last cell. */
  lemma {:induction false} PutBytesConservesIff(s: State, bytes: seq<Byte>)
    requires Clean(s) && NoNul(bytes)
    ensures Output(PutBytes(s, bytes)) == Output(s) + bytes <==> Conserves(s, |bytes|)
    decreases |bytes|
  {
    if bytes != [] {
      PutBytesUnfolds(s, bytes);
      hide PutChar, PutBytes, Output;
      var r, rest := PutChar(s, bytes[0]), bytes[1..];
      PutCharOutputs(s, bytes[0]);
      PutBytesConservesIff(r, rest);
      PutBytesCounts(s, bytes);
      Regroup(Output(s), bytes);
    }
  }

  lemma PutStringConservesIff(s: State, text: seq<Byte>)
    requires Clean(s) && NoNul(text)
    ensures var r := PutString(s, text);
      && Clean(r) && r.cells[r.pos] == 0 && r.cells[BUFFER_SIZE] == s.cells[BUFFER_SIZE]
      && (Output(r) == Output(s) + text <==> Conserves(s, |text|))
  {
    PutBytesConservesIff(s, text);
    PutBytesCounts(s, text);
    assert Pending(PutString(s, text)) == Pending(PutBytes(s, text));
  }

  // A buffer as the constructor leaves it, over whatever was in its memory.
  function Fresh(memory: seq<Byte>): State {
    State(memory, 0, 0, [])
  }

  /** The first fill of a new buffer outputs its 1024 bytes alone if and only if the byte that happened to be in
      the last cell is NUL; otherwise that byte follows them. */
  lemma FirstFill(memory: seq<Byte>, text: seq<Byte>)
    requires |memory| == CELLS && |text| == 1024 && NoNul(text)
    ensures var r := PutBytes(Fresh(memory), text);
      && (r.emitted == text <==> memory[1024] == 0)
      && (memory[1024] != 0 ==> r.emitted == text + [memory[1024]])
  {
    var init, last, s := text[..BUFFER_SIZE - 1], text[BUFFER_SIZE - 1], Fresh(memory);
    assert text == init + [last];
    var r := PutBytes(s, init);
    PutBytesConcat(s, init, [last]);
    PutBytesCounts(s, init);
    PutBytesConservesIff(s, init);
    assert PutBytes(r, [last]) == PutChar(r, last);
    PutCharOutputs(r, last);
    assert r.flushes == 0 && r.pos == BUFFER_SIZE - 1;
    assert Output(r) == init;
  }

  lemma {:induction false} PutBytesConcat(s: State, a: seq<Byte>, b: seq<Byte>)
    requires Valid(s)
    ensures PutBytes(s, a + b) == PutBytes(PutBytes(s, a), b)
    decreases |a|
  {
    if a == [] {
      assert a + b == b;
    } else {
      assert (a + b)[1..] == a[1..] + b;
      PutBytesConcat(PutChar(s, a[0]), a[1..], b);
    }
  }

  // A snapshot with what a reader of the output should see if the caller goes back to it. It is live until the
  // buffer is cleared or reverted to an older snapshot.
  datatype Mark = Mark(context: BufferContext, flushes: nat, wanted: seq<Byte>, live: bool)

  /** A buffer in use: the text the callers want to be output, and every snapshot taken so far, oldest first. */
  datatype World = World(buffer: State, wanted: seq<Byte>, marks: seq<Mark>)

  datatype Action =
    | PutText(text: seq<Byte>)
    | PutCount(bytes: seq<Byte>)
    | Put(c: Byte)
    | Flush
    | Discard
    | Take
    | Revert(mark: nat)

  // The snapshots from the given one on are no longer live.
  function Ended(marks: seq<Mark>, from: nat): (r: seq<Mark>)
    ensures |r| == |marks|
    ensures forall i :: 0 <= i < |marks| ==> r[i] == if i < from then marks[i] else marks[i].(live := false)
  {
    seq(|marks|, i requires 0 <= i < |marks| => if i < from then marks[i] else marks[i].(live := false))
  }

  // Discard is Clear: it forgets the pending bytes, but the snapshots can still be tried.
  function Perform(w: World, a: Action): World
    requires Valid(w.buffer)
  {
    var s := w.buffer;
    match a
    case PutText(text) => World(PutString(s, text), w.wanted + text, w.marks)
    case PutCount(bytes) => World(PutBytes(s, bytes), w.wanted + bytes, w.marks)
    case Put(c) => World(PutChar(s, c), w.wanted + [c], w.marks)
    case Flush => World(Flushed(s), w.wanted, w.marks)
    case Discard => World(s.(pos := 0), s.emitted, Ended(w.marks, 0))
    case Take => World(s, w.wanted, w.marks + [Mark(SnapShot(s), s.flushes, w.wanted, true)])
    case Revert(i) =>
      if i >= |w.marks| || !CanRevert(s, w.marks[i].context) then w
      else World(Reverted(s, w.marks[i].context), w.marks[i].wanted, Ended(w.marks, i + 1))
  }

  // What the callers see to: no NUL in the text, and no revert to a snapshot that was passed by a clear or by
  // a revert to an older one without a flush since, or across a whole wrap of the flush counter.
  ghost predicate Proper(w: World, a: Action) {
    match a
    case PutText(text) => NoNul(text)
    case PutCount(bytes) => NoNul(bytes)
    case Put(c) => c != 0
    case Revert(i) =>
      && i < |w.marks| && w.buffer.flushes < w.marks[i].flushes + FLUSH_WRAP
      && (w.marks[i].live || w.marks[i].flushes != w.buffer.flushes)
    case _ => true
  }

  // The guard: no fill with a stray byte in the last cell, and no explicit flush with one at the position.
  ghost predicate Careful(w: World, a: Action)
    requires Valid(w.buffer)
  {
    match a
    case PutText(text) => Conserves(w.buffer, |text|)
    case PutCount(bytes) => Conserves(w.buffer, |bytes|)
    case Put(_) => Conserves(w.buffer, 1)
    case Flush => w.buffer.cells[w.buffer.pos] == 0
    case _ => true
  }

  // A live snapshot that no flush has followed marks a prefix of the pending bytes.
  ghost predicate MarkOk(s: State, m: Mark) {
    && m.context.ref == m.flushes % FLUSH_WRAP && m.context.pos < BUFFER_SIZE && m.flushes <= s.flushes
    && (m.live && m.flushes == s.flushes ==>
        m.context.pos <= s.pos <= |s.cells| && m.wanted == s.emitted + s.cells[..m.context.pos])
  }

  // Newer snapshots lie at or after older ones.
  ghost predicate Ordered(older: Mark, newer: Mark) {
    && older.flushes <= newer.flushes
    && (older.live && newer.live && older.flushes == newer.flushes ==> older.context.pos <= newer.context.pos)
  }

  ghost predicate MarksOk(s: State, marks: seq<Mark>) {
    && (forall i :: 0 <= i < |marks| ==> MarkOk(s, marks[i]))
    && (forall i, j :: 0 <= i < j < |marks| ==> Ordered(marks[i], marks[j]))
  }

  // What was output and what is pending are together the text the callers want.
  ghost predicate Conserved(w: World) {
    Valid(w.buffer) && Output(w.buffer) == w.wanted
  }

  ghost predicate Inv(w: World) {
    Clean(w.buffer) && Conserved(w) && MarksOk(w.buffer, w.marks)
  }

  function Start(memory: seq<Byte>): World {
    World(Fresh(memory), [], [])
  }

  // What insertions leave alone: the bytes before the old position, unless a flush came between.
  ghost predicate Extends(s: State, r: State) {
    && s.flushes <= r.flushes
    && (s.flushes == r.flushes ==>
        && s.emitted == r.emitted && s.pos <= r.pos <= |r.cells| && s.pos <= |s.cells|
        && r.cells[..s.pos] == s.cells[..s.pos])
  }

  lemma ExtendKeepsMarks(s: State, r: State, marks: seq<Mark>)
    requires MarksOk(s, marks) && Extends(s, r)
    ensures MarksOk(r, marks)
  {
    forall i | 0 <= i < |marks| ensures MarkOk(r, marks[i]) {
      var p := marks[i].context.pos;
      if marks[i].live && s.flushes == r.flushes == marks[i].flushes {
        assert r.cells[..p] == r.cells[..s.pos][..p] && s.cells[..p] == s.cells[..s.pos][..p];
      }
    }
  }

  lemma {:induction false} PutBytesExtends(s: State, bytes: seq<Byte>)
    requires Valid(s)
    ensures Extends(s, PutBytes(s, bytes))
    decreases |bytes|
  {
    if bytes != [] {
      var r := PutChar(s, bytes[0]);
      PutBytesExtends(r, bytes[1..]);
      var last := PutBytes(r, bytes[1..]);
      if last.flushes == s.flushes {
        assert last.cells[..s.pos] == last.cells[..r.pos][..s.pos];
      }
    }
  }

  /** A snapshot is reverted to exactly when the number of flushes since is a multiple of the counter's range,
      so, short of a whole wrap, exactly when there was none. */
  lemma RevertIffUnflushed(s: State, m: Mark)
    requires MarkOk(s, m)
    ensures CanRevert(s, m.context) <==> (s.flushes - m.flushes) % 65536 == 0
    ensures s.flushes < m.flushes + 65536 ==> (CanRevert(s, m.context) <==> s.flushes == m.flushes)
  {
  }

  lemma RevertKeepsInv(w: World, i: nat)
    requires Inv(w) && Proper(w, Revert(i))
    ensures Inv(Perform(w, Revert(i)))
  {
    var s, m := w.buffer, w.marks[i];
    RevertIffUnflushed(s, m);
    if CanRevert(s, m.context) {
      var r, p, marks := Reverted(s, m.context), m.context.pos, Ended(w.marks, i + 1);
      assert Pending(r) == s.cells[..p] == Pending(s)[..p];
      forall j | 0 <= j < |marks| ensures MarkOk(r, marks[j]) {
        assert MarkOk(s, w.marks[j]) && (j < i ==> Ordered(w.marks[j], m));
        if marks[j].live && marks[j].flushes == r.flushes {
          assert r.cells[..marks[j].context.pos] == s.cells[..marks[j].context.pos];
        }
      }
      forall j, k | 0 <= j < k < |marks| ensures Ordered(marks[j], marks[k]) {
        assert Ordered(w.marks[j], w.marks[k]);
      }
    }
  }

  lemma DiscardKeepsInv(w: World)
    requires Inv(w)
    ensures Inv(Perform(w, Discard))
  {
    var marks := Ended(w.marks, 0);
    forall j | 0 <= j < |marks| ensures MarkOk(w.buffer.(pos := 0), marks[j]) {
      assert MarkOk(w.buffer, w.marks[j]);
    }
    forall j, k | 0 <= j < k < |marks| ensures Ordered(marks[j], marks[k]) {
      assert Ordered(w.marks[j], w.marks[k]);
    }
  }

  /** An explicit flush conserves the text if and only if the position holds a NUL, which is the case after a
      string insertion. */
  lemma FlushConservesIff(w: World)
    requires Inv(w)
    ensures var r := Perform(w, Flush);
      (Conserved(r) <==> Careful(w, Flush)) && (Careful(w, Flush) ==> Inv(r))
  {
    var s := w.buffer;
    var r := Flushed(s);
    FlushIsExact(s);
    assert Pending(r) == [] && Output(r) == r.emitted;
    ExtendKeepsMarks(s, r, w.marks);
  }

  lemma PutConservesIff(w: World, bytes: seq<Byte>)
    requires Inv(w) && NoNul(bytes)
    ensures forall a :: a in {PutCount(bytes), PutText(bytes)} ==>
      var r := Perform(w, a);
      (Conserved(r) <==> Careful(w, a)) && (Careful(w, a) ==> Inv(r))
  {
    var s := w.buffer;
    PutBytesConservesIff(s, bytes);
    PutBytesCounts(s, bytes);
    PutStringConservesIff(s, bytes);
    PutBytesExtends(s, bytes);
    ExtendKeepsMarks(s, PutBytes(s, bytes), w.marks);
    assert Extends(s, PutString(s, bytes)) by {
      assert PutString(s, bytes).cells[..s.pos] == PutBytes(s, bytes).cells[..s.pos] || PutBytes(s, bytes).pos < s.pos;
    }
    ExtendKeepsMarks(s, PutString(s, bytes), w.marks);
  }

  /** Conservation, one action: it holds afterwards if and only if the action is careful. */
  lemma PerformConservesIff(w: World, a: Action)
    requires Inv(w) && Proper(w, a)
    ensures var r := Perform(w, a);
      (Conserved(r) <==> Careful(w, a)) && (Careful(w, a) ==> Inv(r))
  {
    match a
    case PutText(text) => PutConservesIff(w, text);
    case PutCount(bytes) => PutConservesIff(w, bytes);
    case Put(c) =>
      PutConservesIff(w, [c]);
      assert PutBytes(w.buffer, [c]) == PutChar(w.buffer, c) by {
        assert [c][1..] == [];
      }
      assert Perform(w, Put(c)) == Perform(w, PutCount([c]));
    case Flush => FlushConservesIff(w);
    case Discard => DiscardKeepsInv(w);
    case Take =>
    case Revert(i) => RevertKeepsInv(w, i);
  }

  function Run(w: World, actions: seq<Action>): World
    requires Valid(w.buffer)
    decreases |actions|
  {
    if actions == [] then w else Run(Perform(w, actions[0]), actions[1..])
  }

  ghost predicate ProperRun(w: World, actions: seq<Action>)
    requires Valid(w.buffer)
    decreases |actions|
  {
    actions == [] || (Proper(w, actions[0]) && ProperRun(Perform(w, actions[0]), actions[1..]))
  }

  ghost predicate CarefulRun(w: World, actions: seq<Action>)
    requires Valid(w.buffer)
    decreases |actions|
  {
    actions == [] || (Careful(w, actions[0]) && CarefulRun(Perform(w, actions[0]), actions[1..]))
  }

  // The text is conserved at every point of the run.
  ghost predicate AlwaysConserved(w: World, actions: seq<Action>)
    requires Valid(w.buffer)
    decreases |actions|
  {
    Conserved(w) && (actions == [] || AlwaysConserved(Perform(w, actions[0]), actions[1..]))
  }

  lemma {:induction false} RunFromInv(w: World, actions: seq<Action>)
    requires Inv(w) && ProperRun(w, actions)
    ensures AlwaysConserved(w, actions) <==> CarefulRun(w, actions)
    ensures CarefulRun(w, actions) ==> Inv(Run(w, actions))
    decreases |actions|
  {
    if actions != [] {
      var w' := Perform(w, actions[0]);
      PerformConservesIff(w, actions[0]);
      if Careful(w, actions[0]) {
        RunFromInv(w', actions[1..]);
      } else {
        assert !AlwaysConserved(w', actions[1..]);
      }
    }
  }

  /** Conservation over whole runs, from any memory that the constructor finds: the text is conserved throughout if
      and only if no fill meets a stray byte in the last cell and no explicit flush meets one at the position. */
  lemma RunConservesIff(memory: seq<Byte>, actions: seq<Action>)
    requires |memory| == CELLS && ProperRun(Start(memory), actions)
    ensures AlwaysConserved(Start(memory), actions) <==> CarefulRun(Start(memory), actions)
    ensures CarefulRun(Start(memory), actions) ==> Inv(Run(Start(memory), actions))
  {
    RunFromInv(Start(memory), actions);
  }

  /** The last cell changes only by a flush or a revert at the last position, which puts a NUL there. */
  lemma LastCell(w: World, a: Action)
    requires Inv(w) && Proper(w, a)
    ensures var s := w.buffer;
      Perform(w, a).buffer.cells[BUFFER_SIZE] ==
        if (a == Flush && s.pos == BUFFER_SIZE - 1)
           || (a.Revert? && CanRevert(s, w.marks[a.mark].context) && w.marks[a.mark].context.pos == BUFFER_SIZE - 1)
        then 0 else s.cells[BUFFER_SIZE]
  {
    match a
    case PutText(text) => PutBytesCounts(w.buffer, text);
    case PutCount(bytes) => PutBytesCounts(w.buffer, bytes);
    case Put(c) => PutCharOutputs(w.buffer, c);
    case _ =>
  }

  // The actions alone: texts without NUL, each flush right after a string, as a trace is composed and the
  // destructor ends it, and reverts to live snapshots only. `ready` says that a string was inserted last, and
  // `live` which of the snapshots taken so far are live.
  ghost predicate Disciplined(actions: seq<Action>, ready: bool, live: seq<bool>)
    decreases |actions|
  {
    actions == [] ||
    var rest := actions[1..];
    match actions[0]
    case PutText(text) => NoNul(text) && Disciplined(rest, true, live)
    case PutCount(bytes) => NoNul(bytes) && Disciplined(rest, false, live)
    case Put(c) => c != 0 && Disciplined(rest, false, live)
    case Flush => ready && Disciplined(rest, false, live)
    case Discard => Disciplined(rest, false, seq(|live|, _ => false))
    case Take => Disciplined(rest, ready, live + [true])
    case Revert(i) =>
      i < |live| && live[i]
      && Disciplined(rest, false, seq(|live|, j requires 0 <= j < |live| => j <= i && live[j]))
  }

  function Bytes(a: Action): nat {
    match a
    case PutText(text) => |text|
    case PutCount(bytes) => |bytes|
    case Put(_) => 1
    case _ => 0
  }

  function Inserted(actions: seq<Action>): nat {
    if actions == [] then 0 else Bytes(actions[0]) + Inserted(actions[1..])
  }

  function Cost(a: Action): nat {
    if a.Flush? then BUFFER_SIZE else Bytes(a)
  }

  // An upper bound on the bytes that a run can flush.
  function Work(actions: seq<Action>): nat {
    if actions == [] then 0 else Cost(actions[0]) + Work(actions[1..])
  }

  predicate NoRevert(actions: seq<Action>) {
    actions == [] || (!actions[0].Revert? && NoRevert(actions[1..]))
  }

  lemma WorkBounds(w: World, a: Action)
    requires Inv(w) && Proper(w, a)
    ensures var s, r := w.buffer, Perform(w, a).buffer;
      && BUFFER_SIZE * r.flushes + r.pos <= BUFFER_SIZE * s.flushes + s.pos + Cost(a)
      && r.pos <= s.pos + Bytes(a)
  {
    match a
    case PutText(text) => PutBytesCounts(w.buffer, text);
    case PutCount(bytes) => PutBytesCounts(w.buffer, bytes);
    case Put(c) => PutCharOutputs(w.buffer, c);
    case Revert(i) => RevertIffUnflushed(w.buffer, w.marks[i]);
    case _ =>
  }

  ghost predicate LiveIs(marks: seq<Mark>, live: seq<bool>) {
    |live| == |marks| && forall i :: 0 <= i < |marks| ==> (live[i] ==> marks[i].live)
  }

  // Either the last cell holds a NUL, or the rest of the run cannot fill the buffer.
  predicate Roomy(s: State, actions: seq<Action>)
    requires |s.cells| == CELLS
  {
    s.cells[BUFFER_SIZE] == 0 || s.pos + Inserted(actions) < BUFFER_SIZE
  }

  predicate Wrapless(s: State, actions: seq<Action>) {
    NoRevert(actions) || BUFFER_SIZE * s.flushes + s.pos + Work(actions) < BUFFER_SIZE * FLUSH_WRAP
  }

  lemma {:induction false} DisciplineFromInv(w: World, actions: seq<Action>, ready: bool, live: seq<bool>)
    requires Inv(w) && LiveIs(w.marks, live) && (ready ==> w.buffer.cells[w.buffer.pos] == 0)
    requires Disciplined(actions, ready, live) && Roomy(w.buffer, actions) && Wrapless(w.buffer, actions)
    ensures ProperRun(w, actions) && CarefulRun(w, actions)
    decreases |actions|
  {
    hide PutBytes, PutString, PutChar, NoNul, CString, MarksOk, Output;
    if actions != [] {
      var a, rest := actions[0], actions[1..];
      var w' := Perform(w, a);
      assert Proper(w, a) && Careful(w, a);
      PerformConservesIff(w, a);
      LastCell(w, a);
      WorkBounds(w, a);
      match a
      case PutText(text) =>
        PutStringConservesIff(w.buffer, text);
        DisciplineFromInv(w', rest, true, live);
      case Discard => DisciplineFromInv(w', rest, false, seq(|live|, _ => false));
      case Take => DisciplineFromInv(w', rest, ready, live + [true]);
      case Revert(i) =>
        DisciplineFromInv(w', rest, false, seq(|live|, j requires 0 <= j < |live| => j <= i && live[j]));
      case _ => DisciplineFromInv(w', rest, false, live);
    }
  }

  /** Discipline suffices: flushing only right after a string and reverting only to live snapshots conserves the text
      over every run, over any memory if less than a buffer is inserted in all, and otherwise if the last cell
      starts out NUL; with reverts, as long as the flush counter cannot wrap. */
  lemma DisciplineConserves(memory: seq<Byte>, actions: seq<Action>)
    requires |memory| == CELLS && Disciplined(actions, false, [])
    requires Inserted(actions) < BUFFER_SIZE || memory[BUFFER_SIZE] == 0
    requires NoRevert(actions) || Work(actions) < BUFFER_SIZE * FLUSH_WRAP
    ensures AlwaysConserved(Start(memory), actions)
  {
    DisciplineFromInv(Start(memory), actions, false, []);
    RunConservesIff(memory, actions);
  }

  /** What care avoids, first kind: a second flush in a row outputs the first byte of the text again. */
  lemma FlushAgainRepeats(s: State)
    requires Clean(s) && s.cells[s.pos] == 0 && s.pos > 0
    ensures Flushed(Flushed(s)).emitted == Output(s) + [Pending(s)[0]]
  {
    FlushIsExact(s);
    var r := Flushed(s);
    assert Pending(r) == [] && r.cells[0] == Pending(s)[0];
    FlushIsExact(r);
  }

  /** Second kind: a revert that is followed by a flush still outputs the first byte it took back. */
  lemma RevertedByteIsFlushed(s: State, c: Byte)
    requires Clean(s) && c != 0 && s.pos + 1 < BUFFER_SIZE
    ensures Flushed(Reverted(PutChar(s, c), SnapShot(s))).emitted == Output(s) + [c]
  {
    var r := Reverted(PutChar(s, c), SnapShot(s));
    assert Pending(r) == Pending(s);
    FlushIsExact(r);
  }

  /** A revert ends the text it leaves: a single byte put after it is output alone by the next flush, whatever was
      behind the snapshot. */
  lemma RevertEndsText(s: State, t: State, c: Byte)
    requires Clean(s) && Valid(t) && s.pos + 1 < BUFFER_SIZE && c != 0
    requires t.flushes == s.flushes && t.emitted == s.emitted && t.cells[..s.pos] == Pending(s)
    ensures var r := Reverted(t, SnapShot(s));
      && r.cells == t.cells[s.pos + 1 := 0] && Pending(r) == Pending(s)
      && Flushed(PutChar(r, c)).emitted == Output(s) + [c]
  {
    var r := Reverted(t, SnapShot(s));
    assert Pending(r) == Pending(s) && NoNul(Pending(r));
    PutCharOutputs(r, c);
    FlushIsExact(PutChar(r, c));
  }

  function FlushedTimes(s: State, n: nat): (r: State)
    requires Valid(s)
    ensures Valid(r) && r.flushes == s.flushes + n && (n > 0 ==> r.pos == 0)
  {
    if n == 0 then s else Flushed(FlushedTimes(s, n - 1))
  }

  /** Third kind: after as many flushes as the counter has values, or a multiple, a snapshot is taken for a current
      one, and the revert brings bytes back that were output long before. */
  lemma RevertAfterWrap(s: State, n: nat)
    requires Valid(s) && n > 0 && n % FLUSH_WRAP == 0
    ensures var t := FlushedTimes(s, n);
      CanRevert(t, SnapShot(s)) && |Output(Reverted(t, SnapShot(s)))| == |Output(t)| + s.pos
  {
    assert (s.flushes + n) % FLUSH_WRAP == s.flushes % FLUSH_WRAP;
  }

  /** Fourth kind: a clear does not invalidate a snapshot. A revert to one taken before it succeeds and mixes the text
      inserted since with the text that was cleared. */
  lemma RevertAfterClear(s: State, c: Byte)
    requires Clean(s) && s.pos > 0 && c != 0
    ensures var t := PutChar(s.(pos := 0), c);
      CanRevert(t, SnapShot(s)) && Pending(Reverted(t, SnapShot(s))) == [c] + Pending(s)[1..]
  {
  }

  // The same as a run: the text is lost unless the byte inserted happens to be the first one cleared.
  lemma RevertAfterClearLoses(w: World, c: Byte)
    requires Inv(w) && w.buffer.pos > 0 && c != 0 && c != w.buffer.cells[0]
    ensures var taken := Perform(w, Take);
      var cleared := Perform(Perform(taken, Discard), Put(c));
      Conserved(cleared) && !Proper(cleared, Revert(|w.marks|)) && !Conserved(Perform(cleared, Revert(|w.marks|)))
  {
    var s := w.buffer;
    var t := PutChar(s.(pos := 0), c);
    RevertAfterClear(s, c);
    var r := Perform(Perform(Perform(Perform(w, Take), Discard), Put(c)), Revert(|w.marks|));
    assert r.wanted == Output(s) && r.buffer == Reverted(t, SnapShot(s));
    assert Output(r.buffer)[|s.emitted|] == c && Output(s)[|s.emitted|] == s.cells[0];
  }

  class TextBuffer {
    const szBuffer: array<Byte>
    var pos: nat
    var wFlushes: nat
    ghost var flushes: nat
    ghost var emitted: seq<Byte>

    ghost function View(): State
      reads this, szBuffer
    {
      State(szBuffer[..], pos, flushes, emitted)
    }

    ghost predicate Wf()
      reads this
    {
      szBuffer.Length == CELLS && pos <= BUFFER_SIZE && wFlushes == flushes % FLUSH_WRAP
    }

    // The constructor sets the position and the counter; the cells hold what was there before.
    constructor (memory: array<Byte>)
      requires memory.Length == CELLS
      ensures Wf() && szBuffer == memory && View() == Fresh(memory[..])
    {
      szBuffer := memory;
      pos, wFlushes, flushes, emitted := 0, 0, 0, [];
    }

    method Clear()
      modifies `pos
      ensures View() == old(View()).(pos := 0)
    {
      pos := 0;
    }

    method Flush()
      requires Wf()
      modifies this, szBuffer
      ensures Wf() && View() == Flushed(old(View()))
    {
      szBuffer[pos + 1] := 0;
      emitted := emitted + CString(szBuffer[..]);
      wFlushes := (wFlushes + 1) % FLUSH_WRAP;
      flushes := flushes + 1;
      Clear();
    }

    // The character insertion operator.
    method InsertChar(c: Byte)
      requires Wf() && pos < BUFFER_SIZE
      modifies this, szBuffer
      ensures Wf() && Valid(View()) && View() == PutChar(old(View()), c)
    {
      szBuffer[pos] := c;
      pos := pos + 1;
      if pos == BUFFER_SIZE {
        Flush();
      }
    }

    method Insert(text: seq<Byte>, nCount: nat)
      requires Wf() && pos < BUFFER_SIZE && nCount <= |text|
      modifies this, szBuffer
      ensures Wf() && Valid(View()) && View() == PutBytes(old(View()), text[..nCount])
    {
      var i := 0;
      while i < nCount
        invariant i <= nCount && Wf() && Valid(View())
        invariant PutBytes(View(), text[i..nCount]) == PutBytes(old(View()), text[..nCount])
      {
        assert text[i..nCount][1..] == text[i + 1..nCount];
        InsertChar(text[i]);
        i := i + 1;
      }
    }

    // The string insertion operator: it copies up to the NUL, which it leaves at the position.
    method InsertString(text: seq<Byte>)
      requires Wf() && pos < BUFFER_SIZE && NoNul(text)
      modifies this, szBuffer
      ensures Wf() && Valid(View()) && View() == PutString(old(View()), text)
    {
      var i := 0;
      while i < |text|
        invariant i <= |text| && Wf() && Valid(View())
        invariant PutBytes(View(), text[i..]) == PutBytes(old(View()), text)
      {
        assert text[i..][1..] == text[i + 1..];
        InsertChar(text[i]);
        i := i + 1;
      }
      szBuffer[pos] := 0;
    }

    method TakeSnapShot() returns (bc: BufferContext)
      requires Wf()
      ensures bc == SnapShot(View())
    {
      bc := BufferContext(pos, wFlushes);
    }

    method RevertTo(bc: BufferContext) returns (ok: bool)
      requires Wf() && pos < BUFFER_SIZE
      modifies `pos, szBuffer
      ensures ok == CanRevert(old(View()), bc)
      ensures Wf() && Valid(View()) && View() == Reverted(old(View()), bc)
    {
      if bc.ref == wFlushes {
        if bc.pos >= BUFFER_SIZE {
          return false;
        }
        pos := bc.pos;
        szBuffer[pos + 1] := 0;
        return true;
      }
      return false;
    }
  }
}
