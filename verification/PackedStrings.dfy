/** The byte format of the string cache: NUL-terminated UTF-16LE strings laid end to end. */
module PackedStrings {
  import opened Common

  // One string with its terminator, two bytes for each character.
  function Encode(s: Text): (b: seq<Byte>)
    ensures |b| == 2 * (|s| + 1)
  {
    if s == [] then [0, 0] else [s[0] % 256, s[0] / 256] + Encode(s[1..])
  }

  // What a reader of the C string at byte offset `at` sees; None when no terminator is met.
  function Decode(b: seq<Byte>, at: nat): Option<Text>
    decreases |b| - at
  {
    if at + 2 > |b| then None
    else
      var c: TChar := b[at] as int + 256 * b[at + 1] as int;
      if c == 0 then Some([])
      else match Decode(b, at + 2)
        case None => None
        case Some(s) => Some([c] + s)
  }

  function Pack(l: seq<Text>): seq<Byte> {
    if l == [] then [] else Pack(l[..|l| - 1]) + Encode(l[|l| - 1])
  }

  // The byte offset of the i-th string of the list.
  function OffsetOf(l: seq<Text>, i: nat): nat
    requires i <= |l|
  {
    |Pack(l[..i])|
  }

  predicate AllText(l: seq<Text>) {
    forall i :: 0 <= i < |l| ==> IsText(l[i])
  }

  lemma {:induction false} DecodeEncode(pre: seq<Byte>, s: Text, post: seq<Byte>)
    requires IsText(s)
    ensures Decode(pre + Encode(s) + post, |pre|) == Some(s)
    decreases |s|
  {
    var b := pre + Encode(s) + post;
    if s == [] {
      assert b[|pre|] == 0 && b[|pre| + 1] == 0;
    } else {
      var two: seq<Byte> := [s[0] % 256, s[0] / 256];
      assert b == (pre + two) + Encode(s[1..]) + post;
      assert b[|pre|] == s[0] % 256 && b[|pre| + 1] == s[0] / 256;
      DecodeEncode(pre + two, s[1..], post);
      assert s == [s[0]] + s[1..];
    }
  }

  lemma PackSnoc(l: seq<Text>, s: Text)
    ensures Pack(l + [s]) == Pack(l) + Encode(s)
  {
    assert (l + [s])[..|l|] == l;
  }

  lemma {:induction false} PackSplit(l: seq<Text>, i: nat)
    requires i <= |l|
    ensures exists rest: seq<Byte> :: Pack(l) == Pack(l[..i]) + rest
  {
    if i == |l| {
      assert l[..i] == l;
      assert Pack(l) == Pack(l[..i]) + [];
    } else {
      var m := l[..|l| - 1];
      PackSplit(m, i);
      assert m[..i] == l[..i];
      var rest: seq<Byte> :| Pack(m) == Pack(l[..i]) + rest;
      assert Pack(l) == Pack(l[..i]) + (rest + Encode(l[|l| - 1]));
    }
  }

  /** Reading at the i-th offset of a packed list gives back the i-th string, whatever follows. */
  lemma {:induction false} DecodePack(l: seq<Text>, i: nat, junk: seq<Byte>)
    requires i < |l| && AllText(l)
    ensures Decode(Pack(l) + junk, OffsetOf(l, i)) == Some(l[i])
  {
    assert l[..i + 1] == l[..i] + [l[i]];
    PackSnoc(l[..i], l[i]);
    PackSplit(l, i + 1);
    var rest: seq<Byte> :| Pack(l) == Pack(l[..i + 1]) + rest;
    assert Pack(l) + junk == Pack(l[..i]) + Encode(l[i]) + (rest + junk);
    DecodeEncode(Pack(l[..i]), l[i], rest + junk);
  }

  /** Offsets start at 0 and rise by the size of each string with its terminator. */
  lemma OffsetStep(l: seq<Text>, i: nat)
    requires i < |l|
    ensures OffsetOf(l, 0) == 0
    ensures OffsetOf(l, i + 1) == OffsetOf(l, i) + 2 * (|l[i]| + 1)
  {
    assert l[..i + 1] == l[..i] + [l[i]];
    PackSnoc(l[..i], l[i]);
  }

  lemma {:induction false} CountBound(l: seq<Text>)
    ensures 2 * |l| <= |Pack(l)|
  {
    if l != [] {
      CountBound(l[..|l| - 1]);
    }
  }
}
