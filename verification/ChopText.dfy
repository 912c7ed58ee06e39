/** Abbreviation of a path so that it fits a width and a number of characters. */
module ChopText {
  import opened Common

  const BACKSLASH: TChar := 0x5C
  const DOT: TChar := 0x2E
  const DOTS: Text := [DOT, DOT, DOT]
  const BIG_NUMBER := 32768

  /** The room the text must fit: GetTextWSize as an oracle, the width and the number of characters. */
  datatype Room = Room(extent: Text -> int, width: int, maxChars: int)

  predicate Fits(room: Room, text: Text) {
    room.extent(text) <= room.width && |text| < room.maxChars
  }

  predicate Absent(text: Text, ch: TChar, from: int, to: int) {
    forall i :: from <= i < to && 0 <= i < |text| ==> text[i] != ch
  }

  // FindChar from a position on; None is the null pointer.
  method FindChar(text: Text, start: nat, ch: TChar) returns (at: Option<nat>)
    requires start <= |text|
    ensures at.None? ==> Absent(text, ch, start, |text|)
    ensures at.Some? ==> start <= at.value < |text| && text[at.value] == ch && Absent(text, ch, start, at.value)
  {
    var i := start;
    while i < |text|
      invariant start <= i <= |text| && Absent(text, ch, start, i)
    {
      if text[i] == ch { return Some(i); }
      i := i + 1;
    }
    at := None;
  }

  method FindReverseChar(text: Text, ch: TChar) returns (last: Option<nat>)
    ensures last.None? ==> Absent(text, ch, 0, |text|)
    ensures last.Some? ==> last.value < |text| && text[last.value] == ch && Absent(text, ch, last.value + 1, |text|)
  {
    last := None;
    var i := 0;
    while i < |text|
      invariant i <= |text|
      invariant last.None? ==> Absent(text, ch, 0, i)
      invariant last.Some? ==> last.value < i && text[last.value] == ch && Absent(text, ch, last.value + 1, i)
    {
      if text[i] == ch { last := Some(i); }
      i := i + 1;
    }
  }

  // The search for the root starts past a drive or the first two characters of a server name.
  function RootStart(path: Text): nat {
    Min(2, |path|)
  }

  predicate IsSlash(path: Text, at: nat) {
    RootStart(path) <= at < |path| && path[at] == BACKSLASH
  }

  // Root, an ellipsis and the tail of the path from a backslash on.
  function RootForm(path: Text, root: nat, at: nat): Text
    requires root <= |path| && at <= |path|
  {
    path[..root] + [BACKSLASH] + DOTS + path[at..]
  }

  function NameForm(path: Text, at: nat): Text
    requires at <= |path|
  {
    DOTS + path[at..]
  }

  /** What the text may become. */
  datatype Choice = Tail(root: nat, at: nat) | Name(start: nat, at: nat) | Nothing

  function Form(path: Text, c: Choice): Text
    requires c.Tail? ==> c.root <= |path| && c.at <= |path|
    requires c.Name? ==> c.at <= |path|
  {
    match c
    case Tail(root, at) => RootForm(path, root, at)
    case Name(_, at) => NameForm(path, at)
    case Nothing => []
  }

  ghost predicate IsRoot(path: Text, root: nat) {
    IsSlash(path, root) && forall k: nat :: IsSlash(path, k) ==> root <= k
  }

  /** The root that is kept is the drive, or the server: the first backslash behind the two at the start. */
  lemma RootIsDriveOrServer(path: Text, root: nat)
    requires IsRoot(path, root)
    ensures root < |path| && path[root] == BACKSLASH
    ensures |path| > 2 && path[2] == BACKSLASH ==> root == 2
    ensures path[0] == path[1] == BACKSLASH ==> root >= 2 && BACKSLASH !in path[2..root]
  {
    assert |path| > 2 && path[2] == BACKSLASH ==> IsSlash(path, 2);
    if BACKSLASH in path[2..root] {
      var k :| 0 <= k < |path[2..root]| && path[2..root][k] == BACKSLASH;
      assert IsSlash(path, k + 2);
    }
  }

  /** An abbreviation is the beginning of the path, a backslash and three full stops, and the end of the path from a
      backslash on; or three full stops and an end of the file name, which has no backslash but the
      one it may begin with (or one of the first two characters). Nothing else is in it. */
  lemma FormShowsEnds(path: Text, c: Choice)
    requires IsCandidate(path, c)
    ensures c.Tail? ==>
      && Form(path, c) == path[..c.root] + [0x5C, 0x2E, 0x2E, 0x2E] + path[c.at..]
      && c.root <= c.at < |path| && path[c.at] == BACKSLASH
    ensures c.Name? ==>
      && Form(path, c) == [0x2E, 0x2E, 0x2E] + path[c.at..]
      && (forall k :: 2 <= k < |path| && c.at < k ==> path[k] != BACKSLASH)
    ensures |Form(path, c)| <= |path| + 4
  {
    if c.Name? {
      forall k | 2 <= k < |path| && c.at < k ensures path[k] != BACKSLASH {
        assert path[k] == BACKSLASH ==> IsSlash(path, k);
      }
    }
    assert [BACKSLASH] + DOTS == [0x5C, 0x2E, 0x2E, 0x2E];
  }

  // Where the file name starts: at the last backslash, or at the beginning if there is no root.
  ghost predicate IsNameStart(path: Text, start: nat) {
    if exists k: nat :: IsSlash(path, k)
    then start < |path| && path[start] == BACKSLASH && Absent(path, BACKSLASH, start + 1, |path|)
    else start == 0
  }

  ghost predicate NoTailFits(room: Room, path: Text, before: nat) {
    forall root: nat, k: nat ::
      IsRoot(path, root) && IsSlash(path, k) && k < before ==> !Fits(room, RootForm(path, root, k))
  }

  ghost predicate NoNameFits(room: Room, path: Text, start: nat, before: nat) {
    forall k: nat :: start <= k < before && k < |path| ==> !Fits(room, NameForm(path, k))
  }

  /** The first candidate that fits: the root with the tails at successive backslashes, then shrinking file names. */
  ghost predicate IsFirstFit(room: Room, path: Text, c: Choice) {
    match c
    case Tail(root, at) =>
      IsRoot(path, root) && IsSlash(path, at) && Fits(room, RootForm(path, root, at)) && NoTailFits(room, path, at)
    case Name(start, at) =>
      && NoTailFits(room, path, |path|) && IsNameStart(path, start) && start <= at < |path|
      && Fits(room, NameForm(path, at)) && NoNameFits(room, path, start, at)
    case Nothing =>
      NoTailFits(room, path, |path|)
      && exists start: nat :: IsNameStart(path, start) && NoNameFits(room, path, start, |path|)
  }

  /** The first fit is determined by the path and the room. */
  lemma FirstFitIsUnique(room: Room, path: Text, c: Choice, d: Choice)
    requires IsFirstFit(room, path, c) && IsFirstFit(room, path, d)
    ensures c == d
  {
  }

  /** The first fit keeps as much of the path as any candidate of its kind that fits, and a text with the root
      wins over one without. */
  lemma FirstFitIsLongest(room: Room, path: Text, c: Choice, d: Choice)
    requires IsFirstFit(room, path, c) && IsCandidate(path, d)
    requires room.extent(Form(path, d)) <= room.width && |Form(path, d)| < room.maxChars
    ensures !c.Nothing? && room.extent(Form(path, c)) <= room.width && |Form(path, c)| < room.maxChars
    ensures d.Tail? ==> c.Tail?
    ensures c.Tail? == d.Tail? ==> |Form(path, d)| <= |Form(path, c)|
  {
  }

  ghost predicate IsCandidate(path: Text, c: Choice) {
    match c
    case Tail(root, at) => IsRoot(path, root) && IsSlash(path, at)
    case Name(start, at) => IsNameStart(path, start) && start <= at < |path|
    case Nothing => false
  }

  // StringCchCopy and StringCchCat into a buffer of cch characters.
  function Copied(cch: int, source: Text): Text
    requires cch > 0
  {
    source[..Min(|source|, cch - 1)]
  }

  function Appended(cch: int, text: Text, source: Text): Text
    requires |text| < cch
  {
    text + source[..Min(|source|, cch - 1 - |text|)]
  }

  ghost predicate Holds(lpch: array<TChar>, text: Text)
    reads lpch
  {
    |text| < lpch.Length && lpch[..|text|] == text && lpch[|text|] == 0 && IsText(text)
  }

  method ReadString(lpch: array<TChar>, ghost text: Text) returns (r: Text)
    requires Holds(lpch, text)
    ensures r == text
  {
    var i := 0;
    assert forall k :: 0 <= k < |text| ==> lpch[k] == lpch[..|text|][k];
    while lpch[i] != 0
      invariant i <= |text|
      decreases |text| - i
    {
      i := i + 1;
    }
    r := lpch[..i];
  }

  method WriteString(lpch: array<TChar>, text: Text)
    requires |text| < lpch.Length && IsText(text)
    modifies lpch
    ensures Holds(lpch, text)
    ensures lpch[|text| + 1..] == old(lpch[|text| + 1..])
  {
    for i := 0 to |text|
      invariant lpch[..i] == text[..i] && lpch[|text| + 1..] == old(lpch[|text| + 1..])
    {
      lpch[i] := text[i];
    }
    lpch[|text|] := 0;
  }

  /** The scratch buffer of length + 5 holds every candidate whole. */
  lemma ScratchSuffices(path: Text, root: nat, at: nat)
    requires root <= at <= |path|
    ensures var cch := |path| + 5;
      && Appended(cch, Appended(cch, Copied(cch, path[..root]), [BACKSLASH] + DOTS), path[at..])
         == RootForm(path, root, at)
      && Appended(cch, Copied(cch, DOTS), path[at..]) == NameForm(path, at)
  {
  }

  // The loop over the directories below the root.
  method ChopDirectories(room: Room, path: Text, root: nat) returns (at: Option<nat>)
    requires IsRoot(path, root)
    ensures at.None? ==> NoTailFits(room, path, |path|)
    ensures at.Some? ==> IsFirstFit(room, path, Tail(root, at.value))
  {
    var cch := |path| + 5;
    var prefix := Appended(cch, Copied(cch, path[..root]), [BACKSLASH] + DOTS);
    var cur := Some(root);
    ghost var from := root;
    while cur.Some?
      invariant cur.Some? ==> cur.value == from && IsSlash(path, from)
      invariant cur.None? ==> from == |path|
      invariant root <= from <= |path| && NoTailFits(room, path, from)
      decreases |path| - from, if cur.Some? then 1 else 0
    {
      var lpszNew := Appended(cch, prefix, path[cur.value..]);
      ScratchSuffices(path, root, cur.value);
      if Fits(room, lpszNew) {
        return cur;
      }
      var next := FindChar(path, cur.value + 1, BACKSLASH);
      NextSlash(room, path, root, cur.value, next);
      cur := next;
      from := if cur.Some? then cur.value else |path|;
    }
    at := None;
  }

  lemma NextSlash(room: Room, path: Text, root: nat, at: nat, next: Option<nat>)
    requires IsRoot(path, root) && IsSlash(path, at)
    requires NoTailFits(room, path, at) && !Fits(room, RootForm(path, root, at))
    requires next.None? ==> Absent(path, BACKSLASH, at + 1, |path|)
    requires next.Some? ==> at < next.value < |path| && Absent(path, BACKSLASH, at + 1, next.value)
    ensures NoTailFits(room, path, if next.Some? then next.value else |path|)
  {
    var end := if next.Some? then next.value else |path|;
    forall root': nat, k: nat | IsRoot(path, root') && IsSlash(path, k) && k < end
      ensures !Fits(room, RootForm(path, root', k))
    {
      assert root == root';
    }
  }

  // The loop over the shrinking file names.
  method ChopName(room: Room, path: Text, start: nat) returns (at: Option<nat>)
    requires start <= |path|
    ensures at.None? ==> NoNameFits(room, path, start, |path|)
    ensures at.Some? ==> start <= at.value < |path|
                         && Fits(room, NameForm(path, at.value)) && NoNameFits(room, path, start, at.value)
  {
    var cch := |path| + 5;
    var i := start;
    while i < |path|
      invariant start <= i <= |path| && NoNameFits(room, path, start, i)
    {
      var lpszNew := Appended(cch, Copied(cch, DOTS), path[i..]);
      ScratchSuffices(path, i, i);
      if Fits(room, lpszNew) {
        return Some(i);
      }
      i := i + 1;
    }
    at := None;
  }

  // The abbreviation as a choice, given that the scratch buffer could be allocated.
  method Choose(room: Room, path: Text) returns (c: Choice)
    ensures IsFirstFit(room, path, c)
  {
    var first := FindChar(path, RootStart(path), BACKSLASH);
    var start := 0;
    if first.Some? {
      var at := ChopDirectories(room, path, first.value);
      if at.Some? {
        return Tail(first.value, at.value);
      }
      var last := FindReverseChar(path, BACKSLASH);
      start := last.value;
    }
    assert IsNameStart(path, start);
    var at := ChopName(room, path, start);
    c := if at.Some? then Name(start, at.value) else Nothing;
  }

  lemma FormIsText(path: Text, c: Choice)
    requires IsText(path) && (c.Nothing? || IsCandidate(path, c))
    ensures IsText(Form(path, c)) && |Form(path, c)| <= |path| + 4
  {
  }

  method Abbreviate(room: Room, lpch: array<TChar>, memory: bool, ghost path: Text) returns (ghost c: Choice)
    requires Holds(lpch, path) && Min(room.maxChars, |path| + 5) <= lpch.Length
    modifies lpch
    ensures !memory ==> lpch[..] == old(lpch[..])
    ensures memory ==> IsFirstFit(room, path, c) && Holds(lpch, Form(path, c))
    ensures memory ==> lpch[|Form(path, c)| + 1..] == old(lpch[|Form(path, c)| + 1..])
  {
    c := Nothing;
    if !memory {
      return;
    }
    var text := ReadString(lpch, path);
    var choice := Choose(room, text);
    c := choice;
    FormIsText(text, choice);
    WriteString(lpch, Form(text, choice));
  }

  /** Text that fits stays; otherwise the first candidate that fits takes its place. */
  method ChopText(hWnd: bool, extent: Text -> int, nWidth: int, clientWidth: int, lpch: array<TChar>, nMaxChars: int,
                  context: bool, memory: bool, ghost path: Text)
    returns (ok: bool, ghost room: Room, ghost c: Choice)
    requires Holds(lpch, path)
    requires Min(if nMaxChars == 0 then BIG_NUMBER else nMaxChars, |path| + 5) <= lpch.Length
    modifies lpch
    ensures ok == hWnd
    ensures room == Room(extent, if nWidth == 0 then clientWidth else nWidth,
                         if nMaxChars == 0 then BIG_NUMBER else nMaxChars)
    ensures !hWnd || !context || !memory || (extent(path) <= room.width && |path| < room.maxChars) ==>
      lpch[..] == old(lpch[..])
    ensures hWnd && context && memory && (extent(path) > room.width || |path| >= room.maxChars) ==>
      && IsFirstFit(room, path, c) && Holds(lpch, Form(path, c))
      && lpch[|Form(path, c)| + 1..] == old(lpch[|Form(path, c)| + 1..])
  {
    var limits := Room(extent, if nWidth == 0 then clientWidth else nWidth,
                       if nMaxChars == 0 then BIG_NUMBER else nMaxChars);
    ok, room, c := hWnd, limits, Nothing;
    if hWnd && context {
      var text := ReadString(lpch, path);
      if !Fits(limits, text) {
        c := Abbreviate(limits, lpch, memory, path);
      }
    }
  }
}
