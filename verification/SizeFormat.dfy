/** Short size formats: a whole number of at most three digits, its decimals and the order of the unit. */
module SizeFormat {
  import opened Common

  const INT64_MAX := 0x7fff_ffff_ffff_ffff
  const INT64_MIN := -0x8000_0000_0000_0000
  const DWORDS := 0x1_0000_0000

  // pwOrders has this many entries of two bytes, and the loop's bound is its size in bytes less one.
  const ORDERS := 5
  const LOOP_BOUND := 2 * ORDERS - 1

  /** What is printed: `fraction` with exactly `places` decimals, in units of the given order. */
  datatype Short = Short(order: nat, whole: int, places: nat, fraction: nat)

  function Unit(order: nat): (u: int)
    ensures u >= 1
  {
    if order == 0 then 1 else 1024 * Unit(order - 1)
  }

  function Scale(places: nat): (t: int)
    ensures t >= 1
  {
    if places == 0 then 1 else 10 * Scale(places - 1)
  }

  // A 32-bit word printed as a signed number.
  function Signed(word: int): int {
    if word % DWORDS >= DWORDS / 2 then word % DWORDS - DWORDS else word % DWORDS
  }

  // The digits of a number below a thousand, which has no thousands separator.
  function Digits(n: int): nat {
    if n < 10 then 1 else if n < 100 then 2 else 3
  }

  /** The number of digits is that of the decimal representation. */
  lemma DigitsExact(n: int)
    requires 0 <= n < 1000
    ensures n < Scale(Digits(n)) && (n > 0 ==> Scale(Digits(n) - 1) <= n)
    ensures 1 <= Digits(n) <= 3 && n * Scale(3 - Digits(n)) < 1000 && (n > 0 ==> 100 <= n * Scale(3 - Digits(n)))
  {
    assert Scale(0) == 1 && Scale(1) == 10 && Scale(2) == 100 && Scale(3) == 1000;
  }

  // The printed number in units of its last place.
  function Printed(s: Short): int {
    s.whole * Scale(s.places) + s.fraction
  }

  // The unit is the first one of which the size has fewer than a thousand.
  ghost predicate IsOrder(size: int, order: nat) {
    order >= 1 && size < 1000 * Unit(order) && (order >= 2 ==> 1000 * Unit(order - 1) <= size)
  }

  /** The printed number does not exceed the size, and falls short by less than one unit in its last place
      and one 1024th of its unit. */
  ghost predicate Approximates(size: int, s: Short)
    requires s.order >= 1
  {
    && Printed(s) * Unit(s.order) <= size * Scale(s.places)
    && size * Scale(s.places) < (Printed(s) + 1) * Unit(s.order) + Scale(s.places) * Unit(s.order - 1)
  }

  lemma MulLe(a: int, b: int, c: int)
    requires a <= b && c >= 0
    ensures a * c <= b * c
  {
  }

  /** Shifting by ten bits moves on to the next unit. */
  // The size has dw whole units of the given size.
  ghost predicate HasUnits(size: int, dw: int, u: int) {
    dw * u <= size < (dw + 1) * u
  }

  lemma ShiftStep(size: int, dw: int, u: int)
    requires HasUnits(size, dw, u) && u >= 1 && dw >= 0
    ensures HasUnits(size, dw / 1024, 1024 * u)
  {
    var q := dw / 1024;
    MulLe(1024 * q, dw, u);
    MulLe(dw + 1, 1024 * q + 1024, u);
    assert (1024 * q) * u == q * (1024 * u);
    assert (1024 * q + 1024) * u == (q + 1) * (1024 * u);
  }

  // The decimals: a number of thousandths of the remainder, cut to the places that are printed.
  function Decimals(rem: int, places: nat): int
    requires 0 <= rem < 1024 && places <= 2
  {
    if places == 0 then 0 else if places == 1 then rem * 1000 / 1024 / 10 / 10 else rem * 1000 / 1024 / 10
  }

  lemma DecimalsApproximate(rem: int, places: nat)
    requires 0 <= rem < 1024 && places <= 2
    ensures 0 <= Decimals(rem, places) < Scale(places)
    ensures Decimals(rem, places) * 1024 <= rem * Scale(places) < (Decimals(rem, places) + 1) * 1024
  {
    assert Scale(0) == 1 && Scale(1) == 10 && Scale(2) == 100;
  }

  lemma Swap(a: int, b: int, c: int)
    ensures (a * b) * c == (a * c) * b
  {
  }

  lemma Below(p: int, dw: int, u: int, t: int, size: int)
    requires p * 1024 <= dw * t && dw * u <= size && u >= 1 && t >= 1
    ensures p * (1024 * u) <= size * t
  {
    MulLe(p * 1024, dw * t, u);
    MulLe(dw * u, size, t);
    Swap(dw, t, u);
  }

  lemma Above(p: int, dw: int, u: int, t: int, size: int)
    requires dw * t < (p + 1) * 1024 && size < (dw + 1) * u && u >= 1 && t >= 1
    ensures size * t < (p + 1) * (1024 * u) + t * u
  {
    MulLe(dw * t + 1, (p + 1) * 1024, u);
    MulLe(size + 1, (dw + 1) * u, t);
    Swap(dw + 1, u, t);
    assert ((dw + 1) * t) * u == (dw * t) * u + t * u;
  }

  lemma Parts(dw: int, whole: int, rem: int, t: int)
    requires dw == whole * 1024 + rem
    ensures dw * t == (whole * t) * 1024 + rem * t
  {
    Swap(whole, 1024, t);
  }

  lemma ShortApproximates(size: int, dw: int, s: Short)
    requires s.order >= 1 && s.places <= 2 && dw >= 0
    requires HasUnits(size, dw, Unit(s.order - 1))
    requires s.whole == dw / 1024 && s.fraction == Decimals(dw % 1024, s.places)
    ensures Approximates(size, s)
  {
    var u, t := Unit(s.order - 1), Scale(s.places);
    DecimalsApproximate(dw % 1024, s.places);
    Parts(dw, s.whole, dw % 1024, t);
    Below(Printed(s), dw, u, t, size);
    Above(Printed(s), dw, u, t, size);
  }

  /** The unit is in the table of five exactly for sizes below a thousand of the last one. */
  lemma OrderInTable(size: int, order: nat)
    requires IsOrder(size, order) && size <= INT64_MAX
    ensures order <= 6
    ensures order < ORDERS <==> size < 1000 * Unit(4)
  {
    UnitGrows(4, order);
    if order >= 2 {
      UnitGrows(order - 1, 4);
      UnitGrows(4, order - 1);
    }
    assert Unit(6) == 1024 * 1024 * 1024 * 1024 * 1024 * 1024;
    if order >= 7 {
      UnitGrows(6, order - 1);
    }
  }

  lemma {:induction false} UnitGrows(a: nat, b: nat)
    ensures a <= b ==> Unit(a) <= Unit(b)
    decreases b
  {
    if a < b {
      UnitGrows(a, b - 1);
    }
  }

  method ShortSizeFormat64(dw64: int) returns (r: Short)
    requires INT64_MIN <= dw64 <= INT64_MAX
    ensures dw64 < 1000 ==> r == Short(0, Signed(dw64), 0, 0)
    ensures -DWORDS / 2 <= dw64 < 1000 ==> r.whole == dw64
    ensures dw64 >= 1000 ==>
      IsOrder(dw64, r.order) && Approximates(dw64, r)
      && 0 <= r.whole <= 999 && r.places == 3 - Digits(r.whole) && r.fraction < Scale(r.places)
      && r.whole * Scale(r.places) < 1000 && (r.whole > 0 ==> 100 <= r.whole * Scale(r.places))
  {
    if dw64 < 1000 {
      return Short(0, Signed(dw64), 0, 0);
    }
    var dw, i := Reduce(dw64);
    SmallWord(dw / 1024);
    var wInt := dw / 1024 % DWORDS;
    var places := 3 - Digits(wInt);
    var wDec := Fraction(dw, wInt, places);
    r := Short(i, wInt, places, wDec);
    DecimalsApproximate(dw % 1024, places);
    DigitsExact(wInt);
    ShortApproximates(dw64, dw, r);
  }

  lemma FirstUnit(size: int)
    ensures Unit(0) == 1 && HasUnits(size, size, Unit(0))
  {
  }

  lemma NextUnit(i: nat)
    requires i >= 1
    ensures Unit(i) == 1024 * Unit(i - 1)
  {
  }

  lemma ThousandOrMore(size: int, dw: int, u: int)
    requires HasUnits(size, dw, u) && u >= 1
    ensures dw >= 1000 * 1024 ==> 1000 * (1024 * u) <= size
    ensures dw < 1000 * 1024 ==> size < 1000 * (1024 * u)
  {
    if dw >= 1000 * 1024 {
      MulLe(1000 * 1024, dw, u);
    } else {
      MulLe(dw + 1, 1000 * 1024, u);
    }
  }

  // The shifts by ten bits, counted by the order.
  method Reduce(size: int) returns (dw: int, i: nat)
    requires 1000 <= size <= INT64_MAX
    ensures IsOrder(size, i) && 1000 <= dw < 1000 * 1024
    ensures HasUnits(size, dw, Unit(i - 1))
  {
    hide Unit, HasUnits;
    FirstUnit(size);
    dw, i := size, 1;
    while i < LOOP_BOUND && dw >= 1000 * 1024
      invariant 1 <= i <= LOOP_BOUND && dw >= 1000
      invariant HasUnits(size, dw, Unit(i - 1))
      invariant i >= 2 ==> 1000 * Unit(i - 1) <= size
      decreases LOOP_BOUND - i
    {
      NextUnit(i);
      ShiftStep(size, dw, Unit(i - 1));
      ThousandOrMore(size, dw, Unit(i - 1));
      dw, i := dw / 1024, i + 1;
    }
    NextUnit(i);
    BoundNeverBites(size, i);
    ThousandOrMore(size, dw, Unit(i - 1));
  }

  // The decimals in 32-bit arithmetic: the product never leaves the range of a word.
  method Fraction(dw: int, wInt: int, places: nat) returns (wDec: nat)
    requires 0 <= dw < 1000 * 1024 && wInt == dw / 1024 && places <= 2
    ensures wDec == Decimals(dw % 1024, places)
  {
    wDec := 0;
    if places > 0 {
      assert dw - wInt * 1024 == dw % 1024;
      SmallWord(dw - wInt * 1024);
      var rem := (dw - wInt * 1024) % DWORDS;
      SmallWord(rem * 1000);
      wDec := rem * 1000 % DWORDS / 1024;
      wDec := wDec / 10;
      if places == 1 {
        wDec := wDec / 10;
      }
    }
  }

  lemma SmallWord(x: int)
    requires 0 <= x < DWORDS
    ensures x % DWORDS == x
  {
  }

  lemma BoundNeverBites(size: int, i: nat)
    requires 1 <= i <= LOOP_BOUND && size <= INT64_MAX && (i >= 2 ==> 1000 * Unit(i - 1) <= size)
    ensures i < LOOP_BOUND
  {
    assert Unit(8) == 1024 * 1024 * Unit(6) && Unit(6) == 1024 * 1024 * Unit(4);
  }
}
