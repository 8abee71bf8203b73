/**
 Binary floating-point numbers that are not negative: a mantissa of p bits, rounded to nearest, ties to
 even (section 4.3.1 of IEEE 754). Exponents are unbounded here.
 */
module Floats {
  import opened Bytes

  /** The nearest integer, or the even one of the two. */
  function RoundEven(y: real): int {
    var f := y.Floor;
    var d := y - f as real;
    if d < 0.5 || (d == 0.5 && f % 2 == 0) then f else f + 1
  }

  lemma HalfQuotient(y: real, x: real)
    requires 0.0 < 2.0 * x < y
    ensures y / x > 2.0 && y / (2.0 * x) == (y / x) / 2.0
  {
    var q := y / x;
    assert q * x == y;
    assert q <= 2.0 ==> (2.0 - q) * x >= 0.0;
    var h := y / (2.0 * x);
    assert h * (2.0 * x) == y;
    assert (2.0 * h - q) * x == 0.0;
  }

  lemma RoundEvenClose(y: real)
    ensures -0.5 <= RoundEven(y) as real - y <= 0.5
  {
  }

  /** How far x is from the numbers with exactly p bits before the point. */
  function Distance(p: nat, x: real): nat
    requires x >= 0.0
  {
    if x >= Pow2(p) as real then x.Floor
    else if 0.0 < x && 2.0 * x < Pow2(p) as real then (Pow2(p) as real / x).Floor
    else 0
  }

  lemma Nearer(p: nat, x: real)
    requires x >= 0.0
    ensures x >= Pow2(p) as real ==> Distance(p, x / 2.0) < Distance(p, x)
    ensures 0.0 < x && 2.0 * x < Pow2(p) as real ==> Distance(p, 2.0 * x) < Distance(p, x)
  {
    if x >= Pow2(p) as real {
      assert x / 2.0 <= x - 0.5;
    } else if 0.0 < x && 2.0 * x < Pow2(p) as real {
      HalfQuotient(Pow2(p) as real, x);
    }
  }

  /** x with its mantissa rounded to p bits. */
  function Round(p: nat, x: real): (r: real)
    requires x >= 0.0
    ensures r >= 0.0
    decreases Distance(p, x)
  {
    Nearer(p, x);
    if x == 0.0 then 0.0
    else if x >= Pow2(p) as real then 2.0 * Round(p, x / 2.0)
    else if 2.0 * x < Pow2(p) as real then Round(p, 2.0 * x) / 2.0
    else RoundEven(x) as real
  }

  function Single(x: real): (r: real)
    requires x >= 0.0
    ensures r >= 0.0
  {
    Round(24, x)
  }

  function Double(x: real): (r: real)
    requires x >= 0.0
    ensures r >= 0.0
  {
    Round(53, x)
  }

  function Times(x: real, y: real): (r: real)
    ensures x >= 0.0 && y >= 0.0 ==> r >= 0.0
  {
    x * y
  }

  lemma TimesMonotone(x: real, y: real, k: real)
    requires x <= y && k >= 0.0
    ensures Times(x, k) <= Times(y, k)
  {
    assert (y - x) * k >= 0.0;
  }

  lemma {:induction false} Positive(p: nat, x: real)
    requires p > 0 && x > 0.0
    ensures Round(p, x) > 0.0
    decreases Distance(p, x)
  {
    Nearer(p, x);
    if x >= Pow2(p) as real {
      Positive(p, x / 2.0);
    } else if 2.0 * x < Pow2(p) as real {
      Positive(p, 2.0 * x);
    }
  }

  /** r is x up to a relative error of 1 / k. */
  predicate Near(r: real, x: real, k: real) {
    Times(r - x, k) <= x && Times(x - r, k) <= x
  }

  lemma NearTwice(r: real, x: real, k: real)
    ensures Near(2.0 * r, 2.0 * x, k) <==> Near(r, x, k)
  {
    assert (2.0 * r - 2.0 * x) * k == 2.0 * ((r - x) * k);
    assert (2.0 * x - 2.0 * r) * k == 2.0 * ((x - r) * k);
  }

  lemma NearIfClose(r: real, x: real, k: real)
    requires -0.5 <= r - x <= 0.5 && 2.0 * x >= k >= 0.0
    ensures Near(r, x, k)
  {
    hide Times;
    TimesMonotone(r - x, 0.5, k);
    TimesMonotone(x - r, 0.5, k);
    TimesHalf(k);
  }

  lemma TimesHalf(k: real)
    ensures Times(0.5, k) == k / 2.0
  {
  }

  /** The relative error is at most half a unit in the last place. */
  lemma {:induction false} RoundNear(p: nat, x: real)
    requires x >= 0.0
    ensures Near(Round(p, x), x, Pow2(p) as real)
    decreases Distance(p, x)
  {
    hide Near, Pow2, RoundEven, Distance;
    var k := Pow2(p) as real;
    Nearer(p, x);
    if x == 0.0 {
      NearNothing(k);
    } else if x >= k {
      RoundNear(p, x / 2.0);
      NearTwice(Round(p, x / 2.0), x / 2.0, k);
    } else if 2.0 * x < k {
      RoundNear(p, 2.0 * x);
      NearTwice(Round(p, x), x, k);
    } else {
      RoundEvenClose(x);
      NearIfClose(RoundEven(x) as real, x, k);
    }
  }

  lemma NearNothing(k: real)
    ensures Near(0.0, 0.0, k)
  {
  }

  /** Rounding commutes with a shift of the point. */
  lemma {:induction false} RoundTwice(p: nat, x: real)
    requires x >= 0.0
    ensures Round(p, 2.0 * x) == 2.0 * Round(p, x)
  {
    assert (2.0 * x) / 2.0 == x;
  }

  /** x times 2 to the k. */
  function Shift(x: real, k: nat): (r: real)
    ensures x >= 0.0 ==> r >= 0.0
  {
    if k == 0 then x else 2.0 * Shift(x, k - 1)
  }

  lemma {:induction false} RoundShift(p: nat, x: real, k: nat)
    requires x >= 0.0
    ensures Round(p, Shift(x, k)) == Shift(Round(p, x), k)
  {
    if k > 0 {
      RoundShift(p, x, k - 1);
      RoundTwice(p, Shift(x, k - 1));
    }
  }

  /** Integers of at most p bits are not rounded. */
  lemma {:induction false} IntegersFit(p: nat, n: nat)
    requires p > 0 && n <= Pow2(p)
    ensures Round(p, n as real) == n as real
    decreases Distance(p, n as real)
  {
    Nearer(p, n as real);
    if n == Pow2(p) {
      assert n as real / 2.0 == Pow2(p - 1) as real;
      IntegersFit(p, Pow2(p - 1));
    } else if 0 < n && 2 * n < Pow2(p) {
      IntegersFit(p, 2 * n);
      assert 2.0 * n as real == (2 * n) as real;
    }
  }

  lemma {:induction false} ShiftTwice(x: real, k: nat)
    ensures Shift(2.0 * x, k) == 2.0 * Shift(x, k)
  {
    if k > 0 {
      ShiftTwice(x, k - 1);
    }
  }

  lemma {:induction false} ShiftInjective(x: real, y: real, k: nat)
    requires Shift(x, k) == Shift(y, k)
    ensures x == y
  {
    if k > 0 {
      ShiftInjective(x, y, k - 1);
    }
  }

  lemma {:induction false} ShiftMore(x: real, k: nat, l: nat)
    ensures Shift(Shift(x, k), l) == Shift(x, k + l)
  {
    if l > 0 {
      ShiftMore(x, k, l - 1);
    }
  }

  lemma {:induction false} ShiftFactor(x: real, k: nat, y: real)
    ensures Shift(x, k) * y == Shift(x * y, k)
  {
    if k > 0 {
      ShiftFactor(x, k - 1, y);
      Associate(2.0, Shift(x, k - 1), y);
    }
  }

  lemma Associate(x: real, y: real, z: real)
    ensures (x * y) * z == x * (y * z)
  {
  }

  lemma Commute(x: real, y: real)
    ensures x * y == y * x
  {
  }

  lemma {:induction false} ShiftTimes(x: real, k: nat, y: real, l: nat)
    ensures Shift(x, k) * Shift(y, l) == Shift(x * y, k + l)
  {
    hide Shift;
    var z := Shift(y, l);
    ShiftFactor(x, k, z);
    ShiftFactor(y, l, x);
    Commute(x, y);
    Commute(x, z);
    assert x * z == Shift(x * y, l);
    ShiftMore(x * y, l, k);
  }

  /** A rounded number is an integer of p bits, up to the position of the point. */
  lemma {:induction false} Mantissa(p: nat, x: real) returns (m: nat, k: nat, l: nat)
    requires p > 0 && x >= 0.0
    ensures m <= Pow2(p) && Shift(Round(p, x), k) == Shift(m as real, l)
    decreases Distance(p, x)
  {
    Nearer(p, x);
    if x == 0.0 {
      m, k, l := 0, 0, 0;
    } else if x >= Pow2(p) as real {
      m, k, l := Mantissa(p, x / 2.0);
      ShiftTwice(Round(p, x / 2.0), k);
      l := l + 1;
    } else if 2.0 * x < Pow2(p) as real {
      m, k, l := Mantissa(p, 2.0 * x);
      ShiftTwice(Round(p, x), k);
      k := k + 1;
    } else {
      RoundEvenClose(x);
      m, k, l := RoundEven(x), 0, 0;
    }
  }

  /** Such numbers are not rounded. */
  lemma {:induction false} Exact(p: nat, y: real, m: nat, k: nat, l: nat)
    requires p > 0 && y >= 0.0 && m <= Pow2(p) && Shift(y, k) == Shift(m as real, l)
    ensures Round(p, y) == y
  {
    RoundShift(p, y, k);
    RoundShift(p, m as real, l);
    IntegersFit(p, m);
    ShiftInjective(Round(p, y), y, k);
  }

  lemma {:induction false} ShiftIs(x: real, k: nat)
    ensures Shift(x, k) == x * Pow2(k) as real
  {
    if k > 0 {
      ShiftIs(x, k - 1);
      var q := Pow2(k - 1) as real;
      assert x * (2.0 * q) == 2.0 * (x * q);
    }
  }

  /** With the point moved so that p bits are before it, rounding is rounding to integers. */
  lemma {:induction false} RoundAt(p: nat, x: real, k: nat)
    requires x > 0.0 && Pow2(p) as real <= 2.0 * Shift(x, k) < 2.0 * Pow2(p) as real
    ensures Shift(Round(p, x), k) == RoundEven(Shift(x, k)) as real
  {
    RoundShift(p, x, k);
  }

  /** What is rounded to an even integer or above. */
  lemma RoundsUpTo(y: real, n: int)
    requires n % 2 == 0
    ensures RoundEven(y) >= n <==> y >= n as real - 0.5
  {
  }
}
