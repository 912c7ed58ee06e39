/** The prefixes in which two link names differ, and the bulk relink that replaces one by the other. */
module LinkNames {
  import opened Common

  const BACKSLASH: TChar := 0x5C
  const BANG: TChar := 0x21
  const MAX_PATH := 260

  predicate IsDelimiter(c: TChar) {
    c == BACKSLASH || c == BANG
  }

  // CharLower as a map of characters: it leaves the delimiters alone and makes no new ones.
  ghost predicate IsCaseMap(lower: TChar -> TChar) {
    forall c :: (lower(c) == BACKSLASH <==> c == BACKSLASH) && (lower(c) == BANG <==> c == BANG)
  }

  function Lower(lower: TChar -> TChar, s: Text): (r: Text)
    ensures |r| == |s|
  {
    seq(|s|, i requires 0 <= i < |s| => lower(s[i]))
  }

  predicate SameIgnoringCase(lower: TChar -> TChar, a: Text, b: Text) {
    Lower(lower, a) == Lower(lower, b)
  }

  // StringCchCopy into a buffer of MAX_PATH characters.
  function Clipped(s: Text): Text {
    s[..Min(|s|, MAX_PATH - 1)]
  }

  function Tail(s: Text, k: nat): Text
    requires k <= |s|
  {
    s[|s| - k..]
  }

  // The last k characters agree ignoring case and are empty or start a token.
  predicate IsTokenSuffix(lower: TChar -> TChar, a: Text, b: Text, k: nat) {
    && k <= |a| && k <= |b| && SameIgnoringCase(lower, Tail(a, k), Tail(b, k))
    && (k == 0 || IsDelimiter(Tail(a, k)[0]))
  }

  ghost predicate IsLongestTokenSuffix(lower: TChar -> TChar, a: Text, b: Text, k: nat) {
    IsTokenSuffix(lower, a, b, k) && forall j: nat :: IsTokenSuffix(lower, a, b, j) ==> j <= k
  }

  // No tail that reaches back over a difference is common.
  lemma Mismatch(t1: Text, t2: Text, k: nat)
    requires k < |t1| && k < |t2| && t1[|t1| - k - 1] != t2[|t2| - k - 1]
    ensures forall j :: k < j <= |t1| && j <= |t2| ==> Tail(t1, j) != Tail(t2, j)
  {
    forall j | k < j <= |t1| && j <= |t2| ensures Tail(t1, j) != Tail(t2, j) {
      assert Tail(t1, j)[j - k - 1] == t1[|t1| - k - 1];
      assert Tail(t2, j)[j - k - 1] == t2[|t2| - k - 1];
    }
  }

  lemma TailStep(t1: Text, t2: Text, k: nat)
    requires 0 < k <= |t1| && k <= |t2| && Tail(t1, k - 1) == Tail(t2, k - 1) && t1[|t1| - k] == t2[|t2| - k]
    ensures Tail(t1, k) == Tail(t2, k)
  {
    assert Tail(t1, k) == [t1[|t1| - k]] + Tail(t1, k - 1);
    assert Tail(t2, k) == [t2[|t2| - k]] + Tail(t2, k - 1);
  }

  // The first loop of DiffPrefix: the longest common tail.
  method CommonTail(t1: Text, t2: Text) returns (k: nat)
    ensures k <= |t1| && k <= |t2| && Tail(t1, k) == Tail(t2, k)
    ensures forall j :: k < j <= |t1| && j <= |t2| ==> Tail(t1, j) != Tail(t2, j)
  {
    var i1, i2 := |t1|, |t2|;
    while i1 > 0 && i2 > 0
      invariant 0 <= i1 <= |t1| && 0 <= i2 <= |t2| && |t1| - i1 == |t2| - i2
      invariant Tail(t1, |t1| - i1) == Tail(t2, |t2| - i2)
    {
      i1, i2 := i1 - 1, i2 - 1;
      if t1[i1] != t2[i2] {
        i1, i2 := i1 + 1, i2 + 1;
        Mismatch(t1, t2, |t1| - i1);
        break;
      }
      TailStep(t1, t2, |t1| - i1);
    }
    k := |t1| - i1;
  }

  // The scan forward to the first delimiter.
  method ToDelimiter(t: Text, start: nat) returns (i: nat)
    requires start <= |t|
    ensures start <= i <= |t| && (i < |t| ==> IsDelimiter(t[i]))
    ensures forall j :: start <= j < i ==> !IsDelimiter(t[j])
  {
    i := start;
    while i < |t| && !IsDelimiter(t[i])
      invariant start <= i <= |t| && forall j :: start <= j < i ==> !IsDelimiter(t[j])
    {
      i := i + 1;
    }
  }

  lemma LowerTail(lower: TChar -> TChar, s: Text, k: nat)
    requires k <= |s|
    ensures Tail(Lower(lower, s), k) == Lower(lower, Tail(s, k))
  {
  }

  /** The prefixes that remain when the longest common token suffix is taken away. */
  method DiffPrefix(lower: TChar -> TChar, s1: Text, s2: Text, memory: bool)
    returns (prefix1: Option<Text>, prefix2: Option<Text>, ghost k: nat)
    requires IsCaseMap(lower)
    ensures IsLongestTokenSuffix(lower, Clipped(s1), Clipped(s2), k)
    ensures !memory ==> prefix1 == None && prefix2 == None
    ensures memory ==> prefix1 == Some(s1[..|Clipped(s1)| - k]) && prefix2 == Some(s2[..|Clipped(s2)| - k])
  {
    var t1, t2 := Lower(lower, Clipped(s1)), Lower(lower, Clipped(s2));
    var common := CommonTail(t1, t2);
    var i1 := ToDelimiter(t1, |t1| - common);
    var i2 := ToDelimiter(t2, |t2| - common);
    k := |t1| - i1;
    SameScan(t1, t2, common, i1, i2);
    LongestAfterScan(lower, Clipped(s1), Clipped(s2), common, k);
    if !memory { return None, None, k; }
    prefix1, prefix2 := Some(s1[..i1]), Some(s2[..i2]);
  }

  // Both scans cross the same common tail, so they stop at the same distance from the end.
  lemma SameScan(t1: Text, t2: Text, common: nat, i1: nat, i2: nat)
    requires common <= |t1| && common <= |t2| && Tail(t1, common) == Tail(t2, common)
    requires |t1| - common <= i1 <= |t1| && (i1 < |t1| ==> IsDelimiter(t1[i1]))
    requires |t2| - common <= i2 <= |t2| && (i2 < |t2| ==> IsDelimiter(t2[i2]))
    requires forall j :: |t1| - common <= j < i1 ==> !IsDelimiter(t1[j])
    requires forall j :: |t2| - common <= j < i2 ==> !IsDelimiter(t2[j])
    ensures |t1| - i1 == |t2| - i2
  {
    assert forall d :: 0 <= d < common ==> Tail(t1, common)[d] == t1[|t1| - common + d];
    assert forall d :: 0 <= d < common ==> Tail(t2, common)[d] == t2[|t2| - common + d];
    var d1, d2 := i1 - (|t1| - common), i2 - (|t2| - common);
    assert d1 < common ==> t2[|t2| - common + d1] == t1[i1];
    assert d2 < common ==> t1[|t1| - common + d2] == t2[i2];
  }

  lemma LongestAfterScan(lower: TChar -> TChar, a: Text, b: Text, common: nat, k: nat)
    requires IsCaseMap(lower) && k <= common <= |a| && common <= |b|
    requires var t1, t2 := Lower(lower, a), Lower(lower, b);
      && Tail(t1, common) == Tail(t2, common)
      && (forall j :: common < j <= |a| && j <= |b| ==> Tail(t1, j) != Tail(t2, j))
      && (k > 0 ==> IsDelimiter(t1[|a| - k]))
      && (forall j :: |a| - common <= j < |a| - k ==> !IsDelimiter(t1[j]))
    ensures IsLongestTokenSuffix(lower, a, b, k)
  {
    var t1, t2 := Lower(lower, a), Lower(lower, b);
    LowerTail(lower, a, k);
    LowerTail(lower, b, k);
    assert Tail(t1, k) == Tail(t1, common)[common - k..] && Tail(t2, k) == Tail(t2, common)[common - k..];
    forall j: nat | IsTokenSuffix(lower, a, b, j) ensures j <= k {
      LowerTail(lower, a, j);
      LowerTail(lower, b, j);
      assert j > 0 ==> IsDelimiter(t1[|a| - j]);
    }
  }

  // What the test of ChangeAllLinks amounts to: the name starts with the prefix, which ends at a token boundary.
  predicate Accepts(name: Text, from: Text) {
    |from| <= |name| && (|name| == |from| || IsDelimiter(name[|from|])) && name[..|from|] == from
  }

  // The test as it is made. For a name shorter than the prefix it reads a character beyond the name's end, which
  // can be anything; the comparison copies at most as many characters as the prefix has.
  predicate Test(name: Text, from: Text, beyond: TChar) {
    var c := if |from| < |name| then name[|from|] else if |from| == |name| then 0 else beyond;
    (c == 0 || c == 0x5C || c == 0x21) && name[..Min(|name|, |from|)] == from
  }

  /** The character beyond a short name makes no difference. */
  lemma TestIsAccepts(name: Text, from: Text, beyond: TChar)
    requires IsText(name)
    ensures Test(name, from, beyond) <==> Accepts(name, from)
  {
    assert |name| < |from| ==> name[..Min(|name|, |from|)] == name;
  }

  // The new name: two bounded copies into a buffer of MAX_PATH characters.
  function Rewritten(name: Text, from: Text, to: Text): Text
    requires |from| <= |name|
  {
    Clipped(Clipped(to) + name[|from|..])
  }

  /** What DiffPrefix finds, ChangeAllLinks can use: the prefixes fit its buffer, the old name passes its test, and
      it is rewritten to the new name, up to case. With names that DiffPrefix cut to its own buffer the test passes
      exactly if the cut is at a token boundary, and the new name is reached exactly if it was not cut itself and
      either the old one was not or the new one just fills the buffer. */
  lemma RelinkReachesNewName(lower: TChar -> TChar, oldName: Text, newName: Text, k: nat)
    requires IsCaseMap(lower) && IsLongestTokenSuffix(lower, Clipped(oldName), Clipped(newName), k)
    ensures var from, to := oldName[..|Clipped(oldName)| - k], newName[..|Clipped(newName)| - k];
      && |from| < MAX_PATH && |to| < MAX_PATH
      && (Accepts(oldName, from) <==> |oldName| < MAX_PATH || k > 0 || IsDelimiter(oldName[MAX_PATH - 1]))
      && (SameIgnoringCase(lower, Rewritten(oldName, from, to), newName) <==>
            |newName| < MAX_PATH && (|oldName| < MAX_PATH || |newName| == MAX_PATH - 1))
  {
    var a, b := Clipped(oldName), Clipped(newName);
    var from, to := oldName[..|a| - k], newName[..|b| - k];
    assert IsTokenSuffix(lower, a, b, k);
    assert k > 0 ==> oldName[|from|] == Tail(a, k)[0];
    RelinkReaches(lower, oldName, newName, k);
  }

  lemma RelinkReaches(lower: TChar -> TChar, oldName: Text, newName: Text, k: nat)
    requires IsTokenSuffix(lower, Clipped(oldName), Clipped(newName), k)
    ensures var from, to := oldName[..|Clipped(oldName)| - k], newName[..|Clipped(newName)| - k];
      SameIgnoringCase(lower, Rewritten(oldName, from, to), newName) <==>
        |newName| < MAX_PATH && (|oldName| < MAX_PATH || |newName| == MAX_PATH - 1)
  {
    hide Lower, Rewritten;
    var a, b := Clipped(oldName), Clipped(newName);
    var from, to := oldName[..|a| - k], newName[..|b| - k];
    RewrittenIs(oldName, from, to);
    if |newName| < MAX_PATH && (|oldName| < MAX_PATH || |newName| == MAX_PATH - 1) {
      TailOfClipped(oldName, k);
      TailOfClipped(newName, k);
      assert to + oldName[|from|..] == (to + Tail(a, k)) + oldName[|a|..];
      assert Rewritten(oldName, from, to) == to + Tail(a, k) && newName == to + Tail(b, k);
      LowerConcat(lower, to, Tail(a, k));
      LowerConcat(lower, to, Tail(b, k));
    } else {
      assert |Lower(lower, Rewritten(oldName, from, to))| != |Lower(lower, newName)|;
    }
  }

  lemma RewrittenIs(name: Text, from: Text, to: Text)
    requires |from| <= |name| && |to| < MAX_PATH
    ensures var all := to + name[|from|..]; Rewritten(name, from, to) == all[..Min(|all|, MAX_PATH - 1)]
  {
  }

  lemma TailOfClipped(name: Text, k: nat)
    requires k <= |Clipped(name)|
    ensures var a := Clipped(name);
      a == name[..|a| - k] + Tail(a, k) && name[|a| - k..] == Tail(a, k) + name[|a|..]
  {
  }

  lemma LowerConcat(lower: TChar -> TChar, a: Text, b: Text)
    ensures Lower(lower, a + b) == Lower(lower, a) + Lower(lower, b)
  {
  }

  /** Every name that the test accepts keeps its own tail and changes only the prefix, exactly if the result fits. */
  lemma RelinkKeepsTail(name: Text, from: Text, to: Text)
    requires Accepts(name, from)
    ensures name == from + Tail(name, |name| - |from|)
    ensures Rewritten(name, from, to) == to + Tail(name, |name| - |from|) <==> |to| + |name| - |from| < MAX_PATH
  {
    assert name[|from|..] == Tail(name, |name| - |from|);
  }
}
