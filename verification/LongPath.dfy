/** Expansion of the short (8.3) components of a path into their long names. */
module LongPath {
  import opened Common

  const BACKSLASH: TChar := 0x5C
  const SLASH: TChar := 0x2F
  const DOT: TChar := 0x2E
  const COLON: TChar := 0x3A
  const TILDE: TChar := 0x7E
  const MAX_PATH := 260

  datatype PathType = UncAbsolute | LocalDevice | RootLocalDevice | DriveAbsolute | DriveRelative | Rooted | Relative

  // The character at index i of a C string, its terminator included.
  function CharAt(p: Text, i: nat): TChar
    requires i <= |p|
  {
    if i < |p| then p[i] else 0
  }

  predicate IsPathSeparator(c: TChar) {
    c == BACKSLASH || c == SLASH
  }

  function DetermineDosPathNameType(p: Text): PathType
    requires p != [] && IsText(p)
  {
    if IsPathSeparator(CharAt(p, 0)) then
      if IsPathSeparator(CharAt(p, 1)) then
        if CharAt(p, 2) == DOT then
          if IsPathSeparator(CharAt(p, 3)) then LocalDevice
          else if CharAt(p, 3) == 0 then RootLocalDevice
          else UncAbsolute
        else UncAbsolute
      else Rooted
    else if CharAt(p, 1) == COLON then
      if IsPathSeparator(CharAt(p, 2)) then DriveAbsolute else DriveRelative
    else Relative
  }

  // The index of the first backslash from i on, or the length.
  function End(p: Text, i: nat): (e: nat)
    requires i <= |p|
    ensures i <= e <= |p| && (e < |p| ==> p[e] == BACKSLASH)
    decreases |p| - i
  {
    if i == |p| || p[i] == BACKSLASH then i else End(p, i + 1)
  }

  lemma {:induction false} NoneBeforeEnd(p: Text, i: nat)
    requires i <= |p|
    ensures BACKSLASH !in p[i..End(p, i)]
    decreases |p| - i
  {
    if i < |p| && p[i] != BACKSLASH {
      NoneBeforeEnd(p, i + 1);
      assert p[i..End(p, i)] == [p[i]] + p[i + 1..End(p, i + 1)];
    }
  }

  function EatDots(p: Text, i: nat): (r: nat)
    requires i <= |p|
    ensures i <= r <= |p|
    decreases |p| - i
  {
    if i + 1 < |p| && p[i] == DOT && p[i + 1] == BACKSLASH then EatDots(p, i + 2)
    else if i + 2 < |p| && p[i] == DOT && p[i + 1] == DOT && p[i + 2] == BACKSLASH then EatDots(p, i + 3)
    else i
  }

  // Where the first component to examine starts, if there is one.
  function FirstComponent(p: Text): (r: Option<nat>)
    requires p != [] && IsText(p)
    ensures r.Some? ==> r.value <= |p|
  {
    match DetermineDosPathNameType(p)
    case UncAbsolute =>
      var server := End(p, 2);
      if server == |p| then None
      else
        var share := End(p, server + 1);
        if share == |p| then None else Some(share + 1)
    case LocalDevice => Some(4)
    case RootLocalDevice => None
    case DriveAbsolute => Some(3)
    case Relative => Some(EatDots(p, 0))
    case DriveRelative => Some(EatDots(p, 2))
    case Rooted => Some(1)
  }

  // A place where a component can start: the beginning of the path, or after a separator or a drive's colon.
  predicate StartsComponent(p: Text, i: nat)
    requires i <= |p|
  {
    i == 0 || IsPathSeparator(p[i - 1]) || p[i - 1] == COLON
  }

  lemma {:induction false} DotsStartComponent(p: Text, i: nat)
    requires i <= |p| && StartsComponent(p, i)
    ensures StartsComponent(p, EatDots(p, i))
    ensures EatDots(p, EatDots(p, i)) == EatDots(p, i)
    decreases |p| - i
  {
    if i + 1 < |p| && p[i] == DOT && p[i + 1] == BACKSLASH {
      DotsStartComponent(p, i + 2);
    } else if i + 2 < |p| && p[i] == DOT && p[i + 1] == DOT && p[i + 2] == BACKSLASH {
      DotsStartComponent(p, i + 3);
    }
  }

  /** Whatever the type of the path, the part that is skipped ends where a component starts, and no
      relative path is left with a leading dot component. */
  lemma FirstStartsComponent(p: Text)
    requires p != [] && IsText(p)
    ensures var first := FirstComponent(p);
      first.Some? ==>
        && StartsComponent(p, first.value)
        && (DetermineDosPathNameType(p) in {Relative, DriveRelative} ==> EatDots(p, first.value) == first.value)
  {
    match DetermineDosPathNameType(p)
    case Relative => DotsStartComponent(p, 0);
    case DriveRelative => DotsStartComponent(p, 2);
    case _ =>
  }

  // Nothing is left to skip at a place of a relative path.
  predicate NoDots(p: Text, i: nat)
    requires i <= |p|
  {
    !([DOT, BACKSLASH] <= p[i..]) && !([DOT, DOT, BACKSLASH] <= p[i..])
  }

  lemma {:induction false} EatDotsEatsDots(p: Text, i: nat)
    requires i <= |p|
    ensures NoDots(p, EatDots(p, i))
    ensures forall k :: i <= k < EatDots(p, i) ==> p[k] == DOT || p[k] == BACKSLASH
    decreases |p| - i
  {
    if i + 1 < |p| && p[i] == DOT && p[i + 1] == BACKSLASH {
      EatDotsEatsDots(p, i + 2);
    } else if i + 2 < |p| && p[i] == DOT && p[i + 1] == DOT && p[i + 2] == BACKSLASH {
      EatDotsEatsDots(p, i + 3);
    }
  }

  /** The place after server and share: the second backslash behind the first two characters is just before it. */
  lemma UncSkipsShare(p: Text)
    requires |p| >= 2 && IsText(p) && IsPathSeparator(p[0]) && IsPathSeparator(p[1])
    requires !(|p| > 2 && p[2] == DOT && (|p| == 3 || IsPathSeparator(p[3])))
    ensures var first := FirstComponent(p);
      && (first.Some? ==>
            exists k: nat :: 2 <= k < first.value - 1 < |p| && p[k] == BACKSLASH == p[first.value - 1]
              && BACKSLASH !in p[2..k] && BACKSLASH !in p[k + 1..first.value - 1])
      && (first.None? ==> forall j, k :: 2 <= j < k < |p| && p[j] == BACKSLASH ==> p[k] != BACKSLASH)
  {
    var k := End(p, 2);
    NoneBeforeEnd(p, 2);
    assert forall j :: 2 <= j < k ==> p[j] == p[2..k][j - 2];
    if k < |p| {
      NoneBeforeEnd(p, k + 1);
      var l := End(p, k + 1);
      assert forall j :: k + 1 <= j < l ==> p[j] == p[k + 1..l][j - k - 1];
    }
  }

  /** The other forms: after a device prefix or a drive's separator, after the dot components of a relative path,
      or after the one separator. */
  lemma FirstByForm(p: Text)
    requires p != [] && IsText(p)
    ensures var first := FirstComponent(p);
      && (IsPathSeparator(p[0]) && (|p| == 1 || !IsPathSeparator(p[1])) ==> first == Some(1))
      && (|p| > 3 && IsPathSeparator(p[0]) && IsPathSeparator(p[1]) && p[2] == DOT && IsPathSeparator(p[3]) ==>
            first == Some(4))
      && (|p| == 3 && IsPathSeparator(p[0]) && IsPathSeparator(p[1]) && p[2] == DOT ==> first == None)
      && (|p| > 2 && !IsPathSeparator(p[0]) && p[1] == COLON && IsPathSeparator(p[2]) ==> first == Some(3))
      && (!IsPathSeparator(p[0]) && !(|p| > 2 && p[1] == COLON && IsPathSeparator(p[2])) ==>
            && first.Some? && NoDots(p, first.value)
            && var start := if |p| > 1 && p[1] == COLON then 2 else 0;
               start <= first.value && forall k :: start <= k < first.value ==> p[k] == DOT || p[k] == BACKSLASH)
  {
    EatDotsEatsDots(p, 0);
    if |p| > 1 { EatDotsEatsDots(p, 2); }
  }

  predicate IllegalInShortName(c: TChar) {
    c <= 0x20 || c in {0x2A, 0x2B, 0x2C, 0x3A, 0x3B, 0x3C, 0x3D, 0x3E, 0x3F, 0x5B, 0x5D, 0x7C}
  }

  const ILLEGAL := "*+,:;<=>?[]|"

  lemma IllegalCharacters(c: TChar)
    ensures IllegalInShortName(c) <==> c <= 0x20 || exists i :: 0 <= i < |ILLEGAL| && ILLEGAL[i] as int == c
  {
    assert ILLEGAL[0] as int == 0x2A && ILLEGAL[1] as int == 0x2B && ILLEGAL[2] as int == 0x2C;
    assert ILLEGAL[3] as int == 0x3A && ILLEGAL[4] as int == 0x3B && ILLEGAL[5] as int == 0x3C;
    assert ILLEGAL[6] as int == 0x3D && ILLEGAL[7] as int == 0x3E && ILLEGAL[8] as int == 0x3F;
    assert ILLEGAL[9] as int == 0x5B && ILLEGAL[10] as int == 0x5D && ILLEGAL[11] as int == 0x7C;
  }

  // The component fits the 8.3 form: legal characters, a base of at most 8, and at most one dot
  // with an extension of at most 3. A lone dot counts only in front of a separator.
  predicate IsShortName(c: Text, separator: bool) {
    && 0 < |c| <= 12
    && (forall i :: 0 <= i < |c| ==> !IllegalInShortName(c[i]))
    && (DOT !in c ==> |c| <= 8)
    && (forall i, j :: 0 <= i < j < |c| && c[i] == DOT ==> c[j] != DOT)
    && (forall d :: 0 <= d < |c| && c[d] == DOT ==>
          d <= 8 && |c| - d <= 4 && (d == 0 ==> |c| == 1 && separator))
  }

  /** The 8.3 form: legal characters that make a base of one to eight and, after a dot, an extension of up to three;
      or a lone dot in front of a separator. */
  lemma ShortNameIsBaseAndExtension(c: Text, separator: bool)
    ensures IsShortName(c, separator) <==>
      (forall i :: 0 <= i < |c| ==> !IllegalInShortName(c[i]))
      && (|| (1 <= |c| <= 8 && DOT !in c)
          || (exists d: nat :: 1 <= d <= 8 && d < |c| && c[d] == DOT && DOT !in c[..d] && DOT !in c[d + 1..]
                               && |c[d + 1..]| <= 3)
          || (c == [DOT] && separator))
  {
    if DOT in c {
      var d :| 0 <= d < |c| && c[d] == DOT;
      assert forall i :: 0 <= i < |c| && i != d ==> c[i] == if i < d then c[..d][i] else c[d + 1..][i - d - 1];
      if d: nat :| 1 <= d <= 8 && d < |c| && c[d] == DOT && DOT !in c[..d] && DOT !in c[d + 1..] && |c[d + 1..]| <= 3 {
        assert forall i :: 0 <= i < |c| && i != d ==> c[i] == if i < d then c[..d][i] else c[d + 1..][i - d - 1];
      }
    }
  }

  // The name of a component in the result: itself if it is long, otherwise what the file system
  // answers for the path up to its end, cut to the size of the temporary buffer.
  function LongName(find: Text -> Option<Text>, p: Text, i: nat): Option<Text>
    requires i <= |p|
  {
    var e := End(p, i);
    if !IsShortName(p[i..e], e < |p|) then Some(p[i..e])
    else match find(p[..e])
      case None => None
      case Some(name) => Some(name[..Min(|name|, MAX_PATH - 1)])
  }

  // The expansion of the components from i on, each followed by its separator.
  function Expand(find: Text -> Option<Text>, p: Text, i: nat): Option<Text>
    requires i <= |p|
    decreases |p| - i
  {
    var e := End(p, i);
    match LongName(find, p, i)
    case None => None
    case Some(name) =>
      if e == |p| then Some(name)
      else match Expand(find, p, e + 1)
        case None => None
        case Some(rest) => Some(name + [BACKSLASH] + rest)
  }

  predicate NothingToExpand(p: Text)
    requires IsText(p)
  {
    TILDE !in p || p == [] || FirstComponent(p) == None
  }

  function LongForm(find: Text -> Option<Text>, p: Text): Option<Text>
    requires IsText(p)
  {
    if NothingToExpand(p) then Some(p)
    else
      var start := FirstComponent(p).value;
      match Expand(find, p, start)
      case None => None
      case Some(rest) => Some(p[..start] + rest)
  }

  // The components from i on.
  function Split(p: Text, i: nat): (l: seq<Text>)
    requires i <= |p|
    decreases |p| - i
  {
    if End(p, i) == |p| then [p[i..]] else [p[i..End(p, i)]] + Split(p, End(p, i) + 1)
  }

  function LongNames(find: Text -> Option<Text>, p: Text, i: nat): (l: seq<Option<Text>>)
    requires i <= |p|
    ensures |l| == |Split(p, i)|
    decreases |p| - i
  {
    var e := End(p, i);
    if e == |p| then [LongName(find, p, i)] else [LongName(find, p, i)] + LongNames(find, p, e + 1)
  }

  function Somes(l: seq<Text>): seq<Option<Text>> {
    if l == [] then [] else [Some(l[0])] + Somes(l[1..])
  }

  lemma {:induction false} EndOfFirst(name: Text, rest: Text, i: nat)
    requires i <= |name| && BACKSLASH !in name && (rest == [] || rest[0] == BACKSLASH)
    ensures End(name + rest, i) == |name|
    decreases |name| - i
  {
    if i < |name| {
      assert (name + rest)[i] == name[i];
      EndOfFirst(name, rest, i + 1);
    }
  }

  lemma {:induction false} EndShift(pre: Text, t: Text, i: nat)
    requires i <= |t|
    ensures End(pre + t, |pre| + i) == |pre| + End(t, i)
    decreases |t| - i
  {
    if i < |t| && t[i] != BACKSLASH {
      assert (pre + t)[|pre| + i] == t[i];
      EndShift(pre, t, i + 1);
    }
  }

  lemma SplitUnfolds(p: Text, i: nat)
    requires i <= |p|
    ensures i <= End(p, i) <= |p|
    ensures Split(p, i) == [p[i..End(p, i)]] + if End(p, i) == |p| then [] else Split(p, End(p, i) + 1)
  {
    assert p[i..|p|] == p[i..] && [p[i..]] + [] == [p[i..]];
  }

  lemma ShiftSlice(pre: Text, t: Text, i: nat, j: nat)
    requires i <= j <= |t|
    ensures (pre + t)[|pre| + i..|pre| + j] == t[i..j]
  {
  }

  lemma {:induction false} SplitShift(pre: Text, t: Text, i: nat)
    requires i <= |t|
    ensures Split(pre + t, |pre| + i) == Split(t, i)
    decreases |t| - i
  {
    hide Split, End;
    EndShift(pre, t, i);
    SplitUnfolds(t, i);
    SplitUnfolds(pre + t, |pre| + i);
    ShiftSlice(pre, t, i, End(t, i));
    if End(t, i) < |t| {
      SplitShift(pre, t, End(t, i) + 1);
    }
  }

  lemma SplitCons(name: Text, rest: Text)
    requires BACKSLASH !in name
    ensures Split(name, 0) == [name]
    ensures Split(name + ([BACKSLASH] + rest), 0) == [name] + Split(rest, 0)
  {
    EndOfFirst(name, [], 0);
    assert name + [] == name;
    var t := name + ([BACKSLASH] + rest);
    assert t == name + [BACKSLASH] + rest;
    EndOfFirst(name, [BACKSLASH] + rest, 0);
    assert t[0..|name|] == name;
    SplitShift(name + [BACKSLASH], rest, 0);
  }

  // The file system's names are names of single components.
  ghost predicate NamesComponents(find: Text -> Option<Text>) {
    forall t :: find(t).Some? ==> BACKSLASH !in find(t).value
  }

  lemma LongNameIsComponent(find: Text -> Option<Text>, p: Text, i: nat)
    requires i <= |p| && NamesComponents(find) && LongName(find, p, i).Some?
    ensures BACKSLASH !in LongName(find, p, i).value
  {
    var e := End(p, i);
    NoneBeforeEnd(p, i);
    if IsShortName(p[i..e], e < |p|) {
      assert BACKSLASH !in find(p[..e]).value;
    }
  }

  lemma ExpandUnfolds(find: Text -> Option<Text>, p: Text, i: nat)
    requires i <= |p| && Expand(find, p, i).Some?
    ensures LongName(find, p, i).Some? && (End(p, i) < |p| ==> Expand(find, p, End(p, i) + 1).Some?)
    ensures Expand(find, p, i).value ==
            LongName(find, p, i).value
            + if End(p, i) == |p| then [] else [BACKSLASH] + Expand(find, p, End(p, i) + 1).value
  {
    if End(p, i) < |p| {
      Assoc(LongName(find, p, i).value, [BACKSLASH], Expand(find, p, End(p, i) + 1).value);
    }
  }

  lemma LongNamesUnfold(find: Text -> Option<Text>, p: Text, i: nat)
    requires i <= |p|
    ensures LongNames(find, p, i) ==
            [LongName(find, p, i)] + if End(p, i) == |p| then [] else LongNames(find, p, End(p, i) + 1)
  {
  }

  // Where the j-th of these components starts, with a separator after each.
  function StartOf(l: seq<Text>, j: nat): nat
    requires j <= |l|
  {
    if j == 0 then 0 else StartOf(l[1..], j - 1) + |l[0]| + 1
  }

  // What the file system answers for a path, cut to the size of the temporary buffer.
  function Asked(find: Text -> Option<Text>, path: Text): Option<Text> {
    match find(path)
    case None => None
    case Some(name) => Some(if |name| < MAX_PATH then name else name[..MAX_PATH - 1])
  }

  lemma AskedIsCut(find: Text -> Option<Text>, path: Text)
    ensures Asked(find, path) ==
            if find(path).None? then None else Some(find(path).value[..Min(|find(path).value|, MAX_PATH - 1)])
  {
    if find(path).Some? && |find(path).value| < MAX_PATH {
      assert find(path).value[..|find(path).value|] == find(path).value;
    }
  }

  // The first component and its name.
  lemma FirstLongName(find: Text -> Option<Text>, p: Text, i: nat)
    requires i <= |p|
    ensures var l, e := Split(p, i), End(p, i);
      && l != [] && l[0] == p[i..e] && BACKSLASH !in l[0] && (1 < |l| <==> e < |p|)
      && LongNames(find, p, i)[0] == if IsShortName(l[0], e < |p|) then Asked(find, p[..e]) else Some(l[0])
  {
    hide IsShortName;
    NoneBeforeEnd(p, i);
    SplitUnfolds(p, i);
    LongNamesUnfold(find, p, i);
    AskedIsCut(find, p[..End(p, i)]);
    if End(p, i) < |p| { SplitUnfolds(p, End(p, i) + 1); }
  }

  lemma StartUnfolds(l: seq<Text>, j: nat)
    requires j <= |l|
    ensures StartOf(l, j) == if j == 0 then 0 else StartOf(l[1..], j - 1) + |l[0]| + 1
  {
  }

  /** Each component is itself in the result if it is not of the 8.3 form; if it is, it is what the file system
      answers for the path up to its end. */
  lemma {:induction false} LongNamesExact(find: Text -> Option<Text>, p: Text, i: nat, j: nat)
    requires i <= |p| && j < |Split(p, i)|
    ensures var c, start := Split(p, i)[j], i + StartOf(Split(p, i), j);
      && start + |c| <= |p| && p[start..start + |c|] == c && BACKSLASH !in c
      && (j + 1 < |Split(p, i)| <==> start + |c| < |p|)
      && LongNames(find, p, i)[j] ==
         if IsShortName(c, j + 1 < |Split(p, i)|) then Asked(find, p[..start + |c|]) else Some(c)
    decreases |p| - i
  {
    hide IsShortName, Split, End, LongNames, StartOf, Asked;
    var l, e := Split(p, i), End(p, i);
    FirstLongName(find, p, i);
    StartUnfolds(l, j);
    if j > 0 {
      SplitUnfolds(p, i);
      LongNamesUnfold(find, p, i);
      assert l[1..] == Split(p, e + 1) && l[j] == Split(p, e + 1)[j - 1];
      LongNamesExact(find, p, e + 1, j - 1);
    }
  }

  /** Without a tilde there is nothing to expand. */
  lemma NoTildeNoChange(find: Text -> Option<Text>, p: Text)
    requires IsText(p) && TILDE !in p
    ensures LongForm(find, p) == Some(p)
  {
  }

  lemma SomesCons(name: Text, l: seq<Text>)
    ensures Somes([name] + l) == [Some(name)] + Somes(l) && Somes([]) == []
  {
    assert ([name] + l)[1..] == l;
  }

  /** The components of the expansion are, in order, the long names of the components of the input,
      as long as the file system's names contain no separator. */
  lemma {:induction false} ExpandKeepsStructure(find: Text -> Option<Text>, p: Text, i: nat)
    requires i <= |p| && Expand(find, p, i).Some? && NamesComponents(find)
    ensures Somes(Split(Expand(find, p, i).value, 0)) == LongNames(find, p, i)
    decreases |p| - i
  {
    hide Split, LongNames, Somes, Expand, LongName;
    var e := End(p, i);
    ExpandUnfolds(find, p, i);
    var name := LongName(find, p, i).value;
    LongNamesUnfold(find, p, i);
    LongNameIsComponent(find, p, i);
    if e == |p| {
      SplitCons(name, []);
      SomesCons(name, []);
      assert name + [] == name && [name] + [] == [name];
    } else {
      var rest := Expand(find, p, e + 1).value;
      ExpandKeepsStructure(find, p, e + 1);
      SplitCons(name, rest);
      SomesCons(name, Split(rest, 0));
    }
  }

  // IsLongComponent: the end of the component that starts at `start`, and whether it is long.
  method IsLongComponent(p: Text, start: nat) returns (long: bool, end: nat)
    requires start <= |p| && IsText(p)
    ensures end == End(p, start)
    ensures long == !IsShortName(p[start..end], end < |p|)
  {
    hide CleanSoFar, LastDot, IllegalInShortName;
    end := start;
    CleanAtStart(p, start);
    var found := false; // fLongNameFound
    var dot: Option<nat> := None;
    while true
      invariant start <= end <= |p| && BACKSLASH !in p[start..end] && End(p, start) == End(p, end)
      invariant LastDot(p, start, end, dot)
      invariant !found ==> CleanSoFar(p, start, end)
      invariant found ==> !IsShortName(p[start..End(p, start)], End(p, start) < |p|)
      decreases |p| - end
    {
      var wc := CharAt(p, end);
      if wc == BACKSLASH || wc == 0 {
        if end > start && !found { LengthsDecide(p, start, end, dot); }
        if end - start > 0 && !found {
          if (dot.None? && end - start <= 8) || (dot.Some? && end - dot.value <= 3 + 1 && end - start <= 8 + 3 + 1) {
            return false, end;
          }
        }
        return true, end;
      }
      DotStep(p, start, end, dot);
      if wc == DOT {
        if dot.Some? || end - start > 8 || (end == start && CharAt(p, end + 1) != BACKSLASH) {
          BadDot(p, start, end, dot);
          found := true;
        }
        if !found { CleanStep(p, start, end, dot); }
        dot := Some(end);
      } else if IllegalInShortName(wc) {
        BadChar(p, start, end);
        found := true;
      } else if !found {
        CleanStep(p, start, end, dot);
      }
      end := end + 1;
    }
  }

  // What the scan of a component has established while it has found nothing against a short name.
  ghost predicate CleanSoFar(p: Text, start: nat, end: nat)
    requires start <= end <= |p|
  {
    && (forall i :: start <= i < end ==> !IllegalInShortName(p[i]))
    && (forall i, j :: start <= i < j < end && p[i] == DOT ==> p[j] != DOT)
    && (forall d :: start <= d < end && p[d] == DOT ==>
          d - start <= 8 && (d == start ==> start + 1 < |p| && p[start + 1] == BACKSLASH))
  }

  // pwcDot points to the last dot of the component so far.
  ghost predicate LastDot(p: Text, start: nat, end: nat, dot: Option<nat>)
    requires start <= end <= |p|
  {
    && (dot.Some? ==> start <= dot.value < end && p[dot.value] == DOT)
    && (forall i :: (if dot.Some? then dot.value + 1 else start) <= i < end ==> p[i] != DOT)
  }

  lemma CleanAtStart(p: Text, start: nat)
    requires start <= |p|
    ensures CleanSoFar(p, start, start) && LastDot(p, start, start, None)
  {
  }

  lemma CleanStep(p: Text, start: nat, end: nat, dot: Option<nat>)
    requires start <= end < |p| && CleanSoFar(p, start, end) && LastDot(p, start, end, dot)
    requires p[end] == DOT || !IllegalInShortName(p[end])
    requires p[end] == DOT ==> dot.None? && end - start <= 8 && (end == start ==> CharAt(p, end + 1) == BACKSLASH)
    ensures CleanSoFar(p, start, end + 1)
  {
  }

  lemma DotStep(p: Text, start: nat, end: nat, dot: Option<nat>)
    requires start <= end < |p| && LastDot(p, start, end, dot)
    ensures LastDot(p, start, end + 1, if p[end] == DOT then Some(end) else dot)
  {
  }

  // A dot the scan objects to: a second one, one after more than eight characters, or a first
  // character that is not a lone dot in front of a separator.
  lemma BadDot(p: Text, start: nat, end: nat, dot: Option<nat>)
    requires start <= end < |p| && p[end] == DOT && End(p, start) == End(p, end)
    requires LastDot(p, start, end, dot)
    requires dot.Some? || end - start > 8 || (end == start && CharAt(p, end + 1) != BACKSLASH)
    ensures !IsShortName(p[start..End(p, start)], End(p, start) < |p|)
  {
    var c := p[start..End(p, start)];
    assert end < End(p, start) && c[end - start] == DOT;
    if dot.Some? { assert c[..end - start][dot.value - start] == DOT; }
  }

  lemma BadChar(p: Text, start: nat, end: nat)
    requires start <= end < |p| && End(p, start) == End(p, end)
    requires IllegalInShortName(p[end]) && p[end] != BACKSLASH
    ensures !IsShortName(p[start..End(p, start)], End(p, start) < |p|)
  {
    assert end < End(p, start) && p[start..End(p, start)][end - start] == p[end];
  }

  // At the end of a clean component the lengths decide.
  lemma LengthsDecide(p: Text, start: nat, end: nat, dot: Option<nat>)
    requires start < end <= |p| && end == End(p, start) && CleanSoFar(p, start, end)
    requires LastDot(p, start, end, dot)
    ensures IsShortName(p[start..end], end < |p|) <==>
      (dot.None? && end - start <= 8) || (dot.Some? && end - dot.value <= 4 && end - start <= 12)
  {
    var c := p[start..end];
    if dot.Some? {
      assert c[dot.value - start] == DOT;
      assert forall i :: 0 <= i < |c| && c[i] == DOT ==> i == dot.value - start;
    }
  }

  // The array holds the C string p.
  ghost predicate Holds(path: array<TChar>, p: Text)
    reads path
  {
    |p| < path.Length && path[..|p|] == p && path[|p|] == 0 && IsText(p)
  }

  // memcpy into the local buffer, once there is still room for everything so far.
  method Emit(local: array<TChar>, at: nat, piece: Text)
    requires at + |piece| <= local.Length
    modifies local
    ensures local[..at + |piece|] == old(local[..at]) + piece
  {
    forall i | 0 <= i < |piece| { local[at + i] := piece[i]; }
  }

  // The long name of one component. Its end is marked with a NUL in the caller's string while the
  // file system is asked, and restored.
  method FindLongName(path: array<TChar>, p: Text, start: nat, end: nat, find: Text -> Option<Text>)
    returns (name: Option<Text>)
    requires Holds(path, p) && start <= |p| && end == End(p, start) && IsShortName(p[start..end], end < |p|)
    modifies path
    ensures path[..] == old(path[..]) && name == LongName(find, p, start)
  {
    var save := path[end];
    path[end] := 0;
    assert Holds(path, p[..end]);
    var found := find(path[..end]);
    path[end] := save;
    match found
    case None => name := None;
    case Some(n) => name := Some(n[..Min(|n|, MAX_PATH - 1)]);
  }

  // The expansion with an accumulator: `done` is the output for the path before `start`.
  function Finish(find: Text -> Option<Text>, p: Text, start: nat, done: Text): Option<Text>
    requires start <= |p|
    decreases |p| - start
  {
    var e := End(p, start);
    match LongName(find, p, start)
    case None => None
    case Some(name) => if e == |p| then Some(done + name) else Finish(find, p, e + 1, done + (name + [BACKSLASH]))
  }

  lemma {:induction false} FinishIsExpand(find: Text -> Option<Text>, p: Text, start: nat, done: Text)
    requires start <= |p|
    ensures Finish(find, p, start, done).Some? <==> Expand(find, p, start).Some?
    ensures Expand(find, p, start).Some? ==> Finish(find, p, start, done) == Some(done + Expand(find, p, start).value)
    decreases |p| - start
  {
    var e := End(p, start);
    if LongName(find, p, start).Some? && e < |p| {
      var piece := LongName(find, p, start).value + [BACKSLASH];
      FinishIsExpand(find, p, e + 1, done + piece);
      if Expand(find, p, e + 1).Some? {
        Assoc(done, piece, Expand(find, p, e + 1).value);
      }
    }
  }

  lemma FinishStep(find: Text -> Option<Text>, p: Text, start: nat, done: Text)
    requires start <= |p|
    ensures LongName(find, p, start).None? ==> Finish(find, p, start, done).None?
    ensures LongName(find, p, start).Some? ==>
      var e, piece := End(p, start), LongName(find, p, start).value + [CharAt(p, End(p, start))];
      if e == |p| then Finish(find, p, start, done).Some? && Finish(find, p, start, done).value + [0] == done + piece
      else Finish(find, p, start, done) == Finish(find, p, e + 1, done + piece)
  {
    if LongName(find, p, start).Some? {
      Assoc(done, LongName(find, p, start).value, [0]);
    }
  }

  lemma Assoc(a: Text, b: Text, c: Text)
    ensures a + (b + c) == a + b + c
  {
  }

  // `count` characters are needed for `done`, and they are in the buffer if they fit.
  ghost predicate Written(local: array<TChar>, count: nat, done: Text)
    reads local
  {
    count == |done| && (count <= local.Length ==> local[..count] == done)
  }

  // One turn of the loop: the component's long name and its terminator, which is NUL at the end.
  method EmitComponent(path: array<TChar>, p: Text, start: nat, end: nat, long: bool, local: array<TChar>,
                       cchOutput: nat, find: Text -> Option<Text>, ghost done: Text)
    returns (ok: bool, needed: nat)
    requires Holds(path, p) && path != local && start <= |p| && Written(local, cchOutput, done)
    requires end == End(p, start) && long == !IsShortName(p[start..end], end < |p|)
    modifies path, local
    ensures path[..] == old(path[..]) && Holds(path, p) && (ok <==> LongName(find, p, start).Some?)
    ensures ok ==> Written(local, needed, done + (LongName(find, p, start).value + [CharAt(p, end)]))
  {
    var name := Some(p[start..end]);
    if !long {
      name := FindLongName(path, p, start, end, find);
      if name.None? { return false, 0; }
    }
    assert path[end] == CharAt(p, end);
    var piece := name.value + [path[end]];
    needed := cchOutput + |piece|;
    if needed <= local.Length { Emit(local, cchOutput, piece); }
    ok := true;
  }

  // The loop over the components. `cchOutput` counts the characters needed, the final NUL
  // included; they are written only while all of them fit.
  method ExpandComponents(path: array<TChar>, p: Text, first: nat, local: array<TChar>, find: Text -> Option<Text>)
    returns (ok: bool, cchOutput: nat)
    requires Holds(path, p) && first <= |p| && path != local
    modifies path, local
    ensures path[..] == old(path[..]) && (ok <==> Finish(find, p, first, p[..first]).Some?)
    ensures ok ==> Written(local, cchOutput, Finish(find, p, first, p[..first]).value + [0])
  {
    hide Finish, LongName, IsShortName, End;
    var start := first;
    var long, end := IsLongComponent(p, start);
    cchOutput := first;
    if cchOutput <= local.Length { Emit(local, 0, p[..first]); }
    ghost var done := p[..first];
    ghost var result := Finish(find, p, first, done);
    while true
      invariant path[..] == old(path[..]) && Holds(path, p)
      invariant start <= |p| && Written(local, cchOutput, done)
      invariant end == End(p, start) && long == !IsShortName(p[start..end], end < |p|)
      invariant Finish(find, p, start, done) == result
      decreases |p| - start
    {
      ok, cchOutput := EmitComponent(path, p, start, end, long, local, cchOutput, find, done);
      FinishStep(find, p, start, done);
      if !ok { return false, 0; }
      done := done + (LongName(find, p, start).value + [CharAt(p, end)]);
      if end == |p| { return true, cchOutput; }
      start := end + 1;
      long, end := IsLongComponent(p, start);
    }
  }

  // The path comes back as it is, without a buffer: nothing to expand, or a single component that is long.
  predicate IsQuick(p: Text)
    requires IsText(p)
  {
    NothingToExpand(p) ||
    var first := FirstComponent(p).value;
    End(p, first) == |p| && !IsShortName(p[first..], false)
  }

  lemma QuickIsItself(find: Text -> Option<Text>, p: Text)
    requires IsText(p) && IsQuick(p)
    ensures LongForm(find, p) == Some(p)
  {
    if !NothingToExpand(p) {
      var first := FirstComponent(p).value;
      assert p == p[..first] + p[first..] && p[first..|p|] == p[first..];
    }
  }

  // Copies a finished string, its NUL included, to the caller's buffer if it fits.
  method Deliver(s: Text, out: array<TChar>, cchLongPath: nat) returns (r: nat)
    requires s != [] && cchLongPath <= out.Length
    modifies out
    ensures r == if cchLongPath >= |s| then |s| - 1 else |s|
    ensures cchLongPath >= |s| ==> out[..|s|] == s && out[|s|..] == old(out[|s|..])
    ensures cchLongPath < |s| ==> out[..] == old(out[..])
  {
    if cchLongPath >= |s| {
      forall i | 0 <= i < |s| { out[i] := s[i]; }
      return |s| - 1;
    }
    return |s|;
  }

  /** The contract of the two-call protocol: a buffer too small returns the size needed and is left
      alone; one of that size is filled and the length is returned. A failure returns 0. The input
      and the output may be the same buffer; otherwise the input is left as it was. */
  method MyGetLongPathName(path: array<TChar>, ghost p: Text, out: array<TChar>, cchLongPath: nat,
                           find: Text -> Option<Text>, memory: bool)
    returns (r: nat)
    requires Holds(path, p) && cchLongPath <= out.Length
    modifies path, out
    ensures path != out ==> path[..] == old(path[..])
    ensures LongForm(find, p) == None ==> r == 0 && out[..] == old(out[..])
    ensures !memory && cchLongPath > 0 && !IsQuick(p) ==> r == 0 && out[..] == old(out[..])
    ensures LongForm(find, p).Some? && (memory || cchLongPath == 0 || IsQuick(p)) ==>
      var s := LongForm(find, p).value + [0];
      && r == (if cchLongPath >= |s| then |s| - 1 else |s|)
      && (cchLongPath >= |s| ==> out[..|s|] == s && out[|s|..] == old(out[|s|..]))
      && (cchLongPath < |s| ==> out[..] == old(out[..]))
  {
    hide Expand, Finish, FirstComponent, IsShortName, End;
    var long := true;
    var n := 0;
    while path[n] != 0
      invariant n <= |p| && long == (TILDE !in p[..n])
      decreases |p| - n
    {
      if path[n] == TILDE { long := false; }
      assert p[..n + 1] == p[..n] + [p[n]];
      n := n + 1;
    }
    assert n == |p| && p[..n] == p;
    var text := path[..n];
    var first := if long then None else FirstComponent(text);
    if first.Some? {
      var firstLong, end := IsLongComponent(text, first.value);
      if firstLong && end == n {
        first := None;
      }
    }
    if first.None? {
      QuickIsItself(find, p);
      r := Deliver(text + [0], out, cchLongPath);
      return;
    }
    if cchLongPath > 0 && !memory { return 0; }
    var local := new TChar[cchLongPath];
    FinishIsExpand(find, text, first.value, text[..first.value]);
    var ok, cchOutput := ExpandComponents(path, text, first.value, local, find);
    if !ok { return 0; }
    if cchLongPath >= cchOutput {
      r := Deliver(local[..cchOutput], out, cchLongPath);
    } else {
      r := cchOutput;
    }
  }
}
