/** The bounded message formatter, against an unbounded expansion of its format. */
module FormatStrings {
  import opened Common

  const PERCENT: TChar := 0x25
  const QUESTION: TChar := 0x3F
  const ONE: TChar := 0x31
  const NINE: TChar := 0x39

  /** The pieces of a format: a character that stands for itself, or the place of an argument. */
  datatype Token = Literal(c: TChar) | Place(i: nat)

  predicate IsPlace(format: Text) {
    |format| >= 2 && format[0] == PERCENT && ONE <= format[1] <= NINE
  }

  function PlaceIndex(format: Text): (i: nat)
    requires IsPlace(format)
    ensures i < 9
  {
    format[1] - ONE
  }

  // The text of an argument: a question mark if there is none, nothing if it is a null pointer.
  function Argument(args: seq<Option<Text>>, i: nat): Text {
    if i >= |args| then [QUESTION] else if args[i].Some? then args[i].value else []
  }

  /** The expansion without a bound. */
  function Expand(format: Text, args: seq<Option<Text>>): Text {
    if format == [] then []
    else if IsPlace(format) then Argument(args, PlaceIndex(format)) + Expand(format[2..], args)
    else [format[0]] + Expand(format[1..], args)
  }

  /** A percent sign and a digit from 1 to 9 stand for the argument of that number: its text, nothing for a null
      pointer, a question mark if there are fewer. What is inserted is not looked at again. */
  lemma PlaceTakesArgument(n: nat, rest: Text, args: seq<Option<Text>>)
    requires 1 <= n <= 9
    ensures Expand([0x25, 0x30 + n] + rest, args) ==
            (if n > |args| then [0x3F] else if args[n - 1].Some? then args[n - 1].value else []) + Expand(rest, args)
  {
    hide Expand, Parse, StartsWell;
    var format: Text := [0x25, 0x30 + n] + rest;
    assert format[2..] == rest && format[0] == 0x25 && format[1] == 0x30 + n;
    PlaceUnfolds(format, args);
  }

  /** Every other character stands for itself, also a percent sign that no such digit follows. */
  lemma OthersStay(c: TChar, rest: Text, args: seq<Option<Text>>)
    requires c != 0x25 || rest == [] || !(0x31 <= rest[0] <= 0x39)
    ensures Expand([c] + rest, args) == [c] + Expand(rest, args)
  {
    assert ([c] + rest)[1..] == rest;
  }

  function Print(tokens: seq<Token>): Text {
    if tokens == [] then [] else Spelling(tokens[0]) + Print(tokens[1..])
  }

  function Spelling(t: Token): Text {
    match t
    case Literal(c) => [c]
    case Place(i) => if i < 9 then [PERCENT, ONE + i] else []
  }

  function Render(tokens: seq<Token>, args: seq<Option<Text>>): Text {
    if tokens == [] then [] else Value(tokens[0], args) + Render(tokens[1..], args)
  }

  function Value(t: Token, args: seq<Option<Text>>): Text {
    match t
    case Literal(c) => [c]
    case Place(i) => Argument(args, i)
  }

  // A percent sign that stands for itself is not followed by a character that would make it a place.
  predicate WellFormed(tokens: seq<Token>) {
    tokens == [] || (StartsWell(tokens) && WellFormed(tokens[1..]))
  }

  predicate StartsWell(tokens: seq<Token>)
    requires tokens != []
  {
    match tokens[0]
    case Place(i) => i < 9
    case Literal(c) => c == PERCENT && |tokens| > 1 && tokens[1].Literal? ==> !(ONE <= tokens[1].c <= NINE)
  }

  function Parse(format: Text): seq<Token> {
    if format == [] then []
    else if IsPlace(format) then [Place(PlaceIndex(format))] + Parse(format[2..])
    else [Literal(format[0])] + Parse(format[1..])
  }

  lemma ConsUnfolds(t: Token, l: seq<Token>, args: seq<Option<Text>>)
    ensures Print([t] + l) == Spelling(t) + Print(l)
    ensures Render([t] + l, args) == Value(t, args) + Render(l, args)
    ensures WellFormed([t] + l) <==> StartsWell([t] + l) && WellFormed(l)
  {
    assert ([t] + l)[1..] == l;
  }

  lemma ParseHead(format: Text)
    requires format != []
    ensures Parse(format) != [] && (Parse(format)[0].Literal? ==> Parse(format)[0].c == format[0])
  {
  }

  lemma ParseStartsWell(format: Text)
    requires format != [] && !IsPlace(format)
    ensures StartsWell([Literal(format[0])] + Parse(format[1..]))
  {
    if format[1..] != [] {
      ParseHead(format[1..]);
    }
  }

  lemma PlaceUnfolds(format: Text, args: seq<Option<Text>>)
    requires IsPlace(format)
    ensures Parse(format) == [Place(PlaceIndex(format))] + Parse(format[2..])
    ensures Expand(format, args) == Argument(args, PlaceIndex(format)) + Expand(format[2..], args)
    ensures StartsWell(Parse(format)) && format == Spelling(Place(PlaceIndex(format))) + format[2..]
  {
  }

  lemma LiteralUnfolds(format: Text, args: seq<Option<Text>>)
    requires format != [] && !IsPlace(format)
    ensures Parse(format) == [Literal(format[0])] + Parse(format[1..])
    ensures Expand(format, args) == [format[0]] + Expand(format[1..], args)
    ensures format == [format[0]] + format[1..]
  {
  }

  /** Every format is a spelling of its tokens, and the expansion renders each of them once: the text of
      an argument is never looked at again. */
  lemma {:induction false} ExpandRendersTokens(format: Text, args: seq<Option<Text>>)
    ensures WellFormed(Parse(format)) && Print(Parse(format)) == format
    ensures Expand(format, args) == Render(Parse(format), args)
  {
    if format == [] {
    } else if IsPlace(format) {
      PlaceUnfolds(format, args);
      hide Print, Render, WellFormed, Parse, Expand, Argument, PlaceIndex;
      ExpandRendersTokens(format[2..], args);
      ConsUnfolds(Place(PlaceIndex(format)), Parse(format[2..]), args);
    } else {
      LiteralUnfolds(format, args);
      hide Print, Render, WellFormed, StartsWell, Parse, Expand, IsPlace;
      ExpandRendersTokens(format[1..], args);
      ParseStartsWell(format);
      ConsUnfolds(Literal(format[0]), Parse(format[1..]), args);
    }
  }

  /** Parsing undoes printing. */
  lemma {:induction false} ParsePrint(tokens: seq<Token>)
    requires WellFormed(tokens)
    ensures Parse(Print(tokens)) == tokens
  {
    if tokens != [] {
      var rest := Print(tokens[1..]);
      ParsePrint(tokens[1..]);
      match tokens[0]
      case Place(i) =>
        assert Print(tokens)[2..] == rest;
      case Literal(c) =>
        assert Print(tokens) == [c] + rest && Print(tokens)[1..] == rest;
        if tokens[1..] != [] {
          assert tokens[1..][0] == tokens[1];
          assert rest[0] == if tokens[1].Literal? then tokens[1].c else PERCENT;
        }
    }
  }

  // What fits into a buffer of cch characters with the terminator.
  function Fitting(text: Text, cch: int): Text
  {
    if cch < 1 then [] else text[..Min(|text|, cch - 1)]
  }

  // StringCchCopy at a position of a buffer with the given room; the copied length is what lstrlen finds.
  method CopyAt(dest: array<TChar>, at: nat, room: int, source: Text) returns (n: nat)
    requires room >= 1 && at + room <= dest.Length
    modifies dest
    ensures n == |Fitting(source, room)|
    ensures dest[..at + n] == old(dest[..at]) + Fitting(source, room) && dest[at + n] == 0
    ensures dest[at + n + 1..] == old(dest[at + n + 1..])
  {
    n := |Fitting(source, room)|;
    for k := 0 to n
      invariant dest[..at + k] == old(dest[..at]) + source[..k]
      invariant dest[at + n..] == old(dest[at + n..])
    {
      dest[at + k] := source[k];
    }
    dest[at + n] := 0;
  }

  method PutAt(dest: array<TChar>, at: nat, c: TChar)
    requires at < dest.Length
    modifies dest
    ensures dest[..at + 1] == old(dest[..at]) + [c] && dest[at + 1..] == old(dest[at + 1..])
  {
    dest[at] := c;
  }

  // What the front of a format stands for, and how much of it that is.
  function Written(rest: Text, args: seq<Option<Text>>): Text
    requires rest != []
  {
    if IsPlace(rest) then Argument(args, PlaceIndex(rest)) else [rest[0]]
  }

  function Read(rest: Text): (n: nat)
    requires rest != []
    ensures 1 <= n <= |rest|
  {
    if IsPlace(rest) then 2 else 1
  }

  // One round of the loop: what the front of the rest of the format becomes, as far as it fits.
  method Put(dest: array<TChar>, rest: Text, args: seq<Option<Text>>, at: nat, room: int) returns (read: nat, n: nat)
    requires rest != [] && room > 1 && at + room <= dest.Length
    modifies dest
    ensures 1 <= read <= |rest| && n < room
    ensures read == Read(rest) && n == |Fitting(Written(rest, args), room)|
    ensures dest[..at + n] == old(dest[..at]) + Fitting(Written(rest, args), room)
    ensures dest[at + n + 1..] == old(dest[at + n + 1..])
  {
    if IsPlace(rest) {
      var i := PlaceIndex(rest);
      read, n := 2, 0;
      if i >= |args| {
        PutAt(dest, at, QUESTION);
        n := 1;
      } else if args[i].Some? {
        n := CopyAt(dest, at, room, args[i].value);
      }
    } else {
      PutAt(dest, at, rest[0]);
      read, n := 1, 1;
    }
  }

  /** The destination holds the longest prefix of the expansion that fits, and the rest of it is untouched. */
  method FormatStrings(dest: array<TChar>, format: Text, args: seq<Option<Text>>, cchDest: int) returns (n: nat)
    requires 1 <= dest.Length && cchDest <= dest.Length && IsText(format) && AllTexts(args)
    modifies dest
    ensures n == |Fitting(Expand(format, args), cchDest)|
    ensures dest[..n] == Fitting(Expand(format, args), cchDest) && dest[n] == 0
    ensures dest[n + 1..] == old(dest[n + 1..])
  {
    hide Expand, Fitting, Written, IsPlace;
    var src, room := 0, cchDest;
    n := 0;
    assert format[0..] == format;
    while src < |format| && room > 1
      invariant src <= |format| && n + room == cchDest && (n == 0 || room >= 1)
      invariant Fitting(Expand(format, args), cchDest) == dest[..n] + Fitting(Expand(format[src..], args), room)
      invariant dest[n + 1..] == old(dest[n + 1..])
    {
      ghost var before, was := dest[..n], n;
      var read, copied := Put(dest, format[src..], args, n, room);
      ExpandStep(format[src..], args, before, room);
      assert format[src..][read..] == format[src + read..];
      assert dest[was + copied + 1..] == old(dest[was + 1..])[copied..];
      src, n, room := src + read, n + copied, room - copied;
    }
    NothingFits(format[src..], args, room);
    dest[n] := 0;
  }

  lemma NothingFits(rest: Text, args: seq<Option<Text>>, room: int)
    requires rest == [] || room <= 1
    ensures Fitting(Expand(rest, args), room) == []
  {
  }

  predicate AllTexts(args: seq<Option<Text>>) {
    forall i :: 0 <= i < |args| && args[i].Some? ==> IsText(args[i].value)
  }

  /** No terminator can come from within, so what the destination holds as a string is the whole prefix. */
  lemma {:induction false} ExpandIsText(format: Text, args: seq<Option<Text>>)
    requires IsText(format) && AllTexts(args)
    ensures IsText(Expand(format, args))
  {
    if format != [] {
      ExpandIsText(format[Read(format)..], args);
    }
  }

  lemma ExpandStep(rest: Text, args: seq<Option<Text>>, before: Text, room: int)
    requires rest != [] && room > 1
    ensures var fit := Fitting(Written(rest, args), room);
      before + Fitting(Expand(rest, args), room)
      == before + fit + Fitting(Expand(rest[Read(rest)..], args), room - |fit|)
  {
    var tail := Expand(rest[Read(rest)..], args);
    assert Expand(rest, args) == Written(rest, args) + tail;
    FitConcat(Written(rest, args), tail, room);
    Assoc(before, Fitting(Written(rest, args), room), Fitting(tail, room - |Fitting(Written(rest, args), room)|));
  }

  lemma Assoc(a: Text, b: Text, c: Text)
    ensures a + (b + c) == a + b + c
  {
  }

  lemma FitConcat(a: Text, b: Text, room: int)
    requires room >= 1
    ensures var fit := Fitting(a, room); Fitting(a + b, room) == fit + Fitting(b, room - |fit|)
  {
  }
}
