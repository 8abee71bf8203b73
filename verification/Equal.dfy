/**
 Servers of the same weight: in exact arithmetic each would have 40 groups of points. In floats it has 40 or
 39, and which of the two can be told from the number of servers alone, as long as the weights are exact.
 */
module EqualShares {
  import opened Bytes
  import opened Floats
  import opened Quotas

  lemma Powers18()
    ensures Pow2(18) == 262144 && Pow2(24) == 16777216
  {
    Powers();
    assert Pow2(1) == 2 && Pow2(2) == 4 && Pow2(3) == 8 && Pow2(5) == 32;
    Pow2Sum(3, 3);
    Pow2Sum(6, 6);
    Pow2Sum(12, 6);
  }

  /** Near 40, floats are 2 to the -18 apart. */
  lemma ReachesForty(x: real)
    requires 38.0 <= x <= 42.0
    ensures Single(x) >= 40.0 <==> x >= 40.0 - 1.0 / 524288.0
  {
    hide Round, Shift, Pow2, RoundEven;
    Powers18();
    ShiftIs(x, 18);
    ShiftIs(Single(x), 18);
    RoundAt(24, x, 18);
    RoundsUpTo(Shift(x, 18), 10485760);
  }

  /** The share of a server among n of the same weight reaches 40, up to half a float. */
  predicate Reaches(w: nat, n: nat)
    requires n * w > 0
  {
    Share(w, n * w, n) >= 40.0 - 1.0 / 524288.0
  }

  lemma Cancelled(q: nat, total: nat)
    requires total > 0
    requires (q * total) * 167772160 <= 40 * total * 167772211
    requires 40 * total * 16777211 < ((q + 1) * total) * 16777216
    ensures q == 39 || q == 40
  {
    assert q >= 41 ==> (q - 41) * total >= 0;
    assert q <= 38 ==> (38 - q) * total >= 0;
  }

  /** With equal weights every server gets 40 groups of points if its share reaches 40, and otherwise 39. */
  lemma EqualQuota(w: nat, n: nat)
    requires w > 0 && n > 0
    ensures n * w > 0 && Quota(w, n * w, n) == if Reaches(w, n) then 40 else 39
  {
    hide Share, Single;
    var total, x := n * w, Share(w, n * w, n);
    QuotaNear(w, total, n);
    var q := Quota(w, total, n);
    Cancelled(q, total);
    assert q == Single(x).Floor;
    SingleNear(x);
    ReachesForty(x);
  }

  // ----- The condition on the number of servers -----

  /** The least power of two that is at least n, from 2 to the e on. */
  function Exponent(n: nat, e: nat): (k: nat)
    ensures k >= e && Pow2(k) >= n
    ensures k > e ==> Pow2(k - 1) < n
    decreases n - Pow2(e)
  {
    if Pow2(e) >= n then e else Exponent(n, e + 1)
  }

  /** What is left when 2 to the 23, times the least power of two that is at least n, is divided by n. */
  function Rest(n: nat): (r: nat)
    requires n > 0
    ensures r < n
  {
    (8388608 * Pow2(Exponent(n, 0))) % n
  }

  /** The float nearest to 1 / n is below it, and by so much that n times 40 of it falls short of 40. */
  predicate Short(n: nat)
    requires n > 0
  {
    5 * Rest(n) > 2 * Pow2(Exponent(n, 0)) && 2 * Rest(n) < n
  }

  lemma OddProduct(m: nat, n: nat)
    ensures (m * n) % 2 == (m % 2) * (n % 2)
  {
    var i, j, a, b := m / 2, n / 2, m % 2, n % 2;
    assert m == 2 * i + a && n == 2 * j + b;
    assert m * n == 2 * (2 * (i * j) + i * b + a * j) + a * b;
  }

  /** An odd factor of a power of two is 1. */
  lemma {:induction false} OddFactor(m: nat, n: nat, k: nat)
    requires m % 2 == 1 && m * n == Pow2(k)
    ensures m == 1
  {
    OddProduct(m, n);
    if k == 0 {
      assert n >= 1;
      assert m > 1 ==> m * n > 1 * n;
    } else {
      var h := n / 2;
      assert n == 2 * h;
      assert m * n == 2 * (m * h);
      OddFactor(m, h, k - 1);
    }
  }

  lemma PowerBounds(n: nat)
    requires n > 0
    ensures n <= Pow2(Exponent(n, 0)) < 2 * n
  {
  }

  /** There is no tie: n would have to be even, and the quotient odd and a factor of a power of two. */
  lemma NoTie(n: nat)
    requires n > 0
    ensures 2 * Rest(n) != n
  {
    hide Exponent, Pow2;
    var e := Exponent(n, 0);
    var q := 8388608 * Pow2(e);
    var f := q / n;
    PowerBounds(n);
    PowerIs(e);
    Quotient(q, n);
    if 2 * Rest(n) == n {
      Doubled(q, f, n, Rest(n));
      OddFactor(2 * f + 1, n, 24 + e);
    }
  }

  lemma PowerIs(e: nat)
    ensures Pow2(23 + e) == 8388608 * Pow2(e) && Pow2(24 + e) == 16777216 * Pow2(e)
  {
    Powers();
    Pow2Sum(24, e);
    assert Pow2(24 + e) == 2 * Pow2(23 + e);
  }

  lemma Quotient(q: nat, n: nat)
    requires n > 0
    ensures q == (q / n) * n + q % n && (q >= n ==> q / n >= 1)
  {
  }

  lemma Doubled(q: nat, f: nat, n: nat, r: nat)
    requires q == f * n + r && 2 * r == n
    ensures (2 * f + 1) * n == 2 * q
  {
  }

  lemma FloorOf(q: nat, n: nat)
    requires n > 0
    ensures var y, f := q as real / n as real, q / n;
            && y.Floor == f
            && (y - f as real < 0.5 <==> 2 * (q % n) < n)
            && (y - f as real == 0.5 <==> 2 * (q % n) == n)
  {
    hide Times;
    var y, f, t := q as real / n as real, q / n, n as real;
    var d := y - f as real;
    Quotient(q, n);
    CastProduct(f, n);
    TimesQuotient(q as real, t);
    TimesDifference(y, f as real, t);
    TimesConstants(t);
    TimesCompare(d, 0.0, t);
    TimesCompare(d, 0.5, t);
    TimesCompare(d, 1.0, t);
  }

  lemma TimesQuotient(x: real, t: real)
    requires t > 0.0
    ensures Times(x / t, t) == x
  {
  }

  lemma TimesDifference(x: real, y: real, t: real)
    ensures Times(x - y, t) == Times(x, t) - Times(y, t)
  {
  }

  lemma TimesConstants(t: real)
    ensures Times(0.0, t) == 0.0 && Times(0.5, t) == t / 2.0 && Times(1.0, t) == t
  {
  }

  lemma TimesCompare(x: real, y: real, t: real)
    requires t > 0.0
    ensures (x < y <==> Times(x, t) < Times(y, t)) && (x == y <==> Times(x, t) == Times(y, t))
  {
    hide Times;
    TimesDifference(y, x, t);
    TimesDifference(x, y, t);
    if x < y {
      TimesPositive(y - x, t);
    } else if y < x {
      TimesPositive(x - y, t);
    }
  }

  lemma TimesPositive(x: real, y: real)
    requires x > 0.0 && y > 0.0
    ensures Times(x, y) > 0.0
  {
  }

  /** Whether 1 / n is rounded down, and to what. */
  lemma NearestReciprocal(n: nat)
    requires n > 0
    ensures var p, r := 8388608 * Pow2(Exponent(n, 0)), 1.0 / n as real;
            r > 0.0 && Times(Single(r), p as real) == (p / n + if 2 * Rest(n) < n then 0 else 1) as real
  {
    hide Round, Shift, Pow2, RoundEven, Exponent, Times;
    var e := Exponent(n, 0);
    var p, r := 8388608 * Pow2(e), 1.0 / n as real;
    PowerBounds(n);
    PowerIs(e);
    Powers();
    Reciprocal(n as real, p as real);
    ShiftTimesPower(r, 23 + e);
    ShiftTimesPower(Single(r), 23 + e);
    RoundAt(24, r, 23 + e);
    FloorOf(p, n);
    NoTie(n);
    Rounded(p as real / n as real);
  }

  lemma ShiftTimesPower(x: real, k: nat)
    ensures Shift(x, k) == Times(x, Pow2(k) as real)
  {
    ShiftIs(x, k);
  }

  lemma Rounded(y: real)
    ensures y - y.Floor as real < 0.5 ==> RoundEven(y) == y.Floor
    ensures y - y.Floor as real > 0.5 ==> RoundEven(y) == y.Floor + 1
  {
  }

  lemma Reciprocal(n: real, p: real)
    requires n > 0.0 && 8388608.0 * n <= p < 16777216.0 * n
    ensures 1.0 / n > 0.0 && Times(1.0 / n, p) == p / n
    ensures 8388608.0 <= p / n < 16777216.0
  {
    var r, y := 1.0 / n, p / n;
    assert Times(r, n) == 1.0 && Times(y, n) == p;
    assert Times(8388608.0, n) == 8388608.0 * n && Times(16777216.0, n) == 16777216.0 * n;
    TimesCompare(y, 8388608.0, n);
    TimesCompare(y, 16777216.0, n);
    TimesCompare(Times(r, p), y, n);
    assert Times(Times(r, p), n) == Times(Times(r, n), p);
    TimesCompare(0.0, r, n);
  }

  /** Weights that are floats, and a total that is one, cancel. */
  lemma EqualPercent(w: nat, n: nat)
    requires w > 0 && n > 0 && n * w <= 16777216
    ensures n * w > 0 && w <= 16777216 && n <= 16777216 && Percent(w, n * w) == Single(1.0 / n as real)
  {
    hide Round, Pow2;
    Powers();
    Factors(n, w);
    IntegersFit(24, w);
    IntegersFit(24, n * w);
    CancelWeight(w, n);
  }

  lemma Factors(n: nat, w: nat)
    requires n > 0 && w > 0
    ensures n * w >= n && n * w >= w && n * w > 0
  {
    assert (n - 1) * w >= 0 && n * (w - 1) >= 0;
  }

  lemma CancelWeight(w: nat, n: nat)
    requires w > 0 && n > 0 && n * w > 0
    ensures w as real / (n * w) as real == 1.0 / n as real
  {
    var x, y := w as real / (n * w) as real, 1.0 / n as real;
    CastProduct(n, w);
    var t := (n * w) as real;
    assert Times(x, t) == w as real;
    assert Times(y, n as real) == 1.0;
    assert Times(y, Times(n as real, w as real)) == Times(Times(y, n as real), w as real) == w as real;
    TimesCompare(x, y, t);
  }

  /**
   Which of the two it is: for weights whose total is at most 2 to the 24, whatever the weight, a matter of the
   number of servers.
   */
  lemma ShortIff(w: nat, n: nat)
    requires w > 0 && n > 0 && n * w <= 16777216
    ensures n * w > 0 && (Reaches(w, n) <==> !Short(n))
  {
    hide Round, Pow2, Share, Percent, Single, Exponent, Times, Rest;
    EqualPercent(w, n);
    ExactShare(w, n);
    NearestReciprocal(n);
    var k := Pow2(Exponent(n, 0));
    RoundedShare(Single(1.0 / n as real), 8388608 * k, 8388608 * k / n + if 2 * Rest(n) < n then 0 else 1, n);
    RestIs(n);
    FallsShort(8388608 * k / n, Rest(n), k, n);
  }

  lemma ExactShare(w: nat, n: nat)
    requires w > 0 && 0 < n <= 16777216 && n * w > 0
    ensures Share(w, n * w, n) == Percent(w, n * w) * 40.0 * n as real
  {
    hide Round, Pow2, Share, Percent;
    Powers();
    ShareExact(w, n * w, n);
    IntegersFit(24, n);
  }

  lemma RestIs(n: nat)
    requires n > 0
    ensures var p := 8388608 * Pow2(Exponent(n, 0)); p == (p / n) * n + Rest(n)
  {
    hide Exponent, Pow2;
    Quotient(8388608 * Pow2(Exponent(n, 0)), n);
  }

  lemma FallsShort(f: nat, r: nat, k: nat, n: nat)
    requires 8388608 * k == f * n + r && r < n
    ensures var m := f + if 2 * r < n then 0 else 1;
            m * n * 20971520 >= 20971519 * (8388608 * k) <==> !(5 * r > 2 * k && 2 * r < n)
  {
    assert (f + 1) * n == f * n + n;
  }

  /** The share of n servers, from the rounded quotient m / p. */
  lemma RoundedShare(x: real, p: nat, m: nat, n: nat)
    requires p > 0 && Times(x, p as real) == m as real
    ensures x * 40.0 * n as real >= 40.0 - 1.0 / 524288.0 <==> m * n * 20971520 >= 20971519 * p
  {
    var s, t := x * 40.0 * n as real, p as real;
    CastProduct(m, n);
    assert Times(s, t) == 40.0 * Times(Times(x, t), n as real);
    assert Times(40.0 - 1.0 / 524288.0, t) == (40.0 - 1.0 / 524288.0) * t;
    TimesCompare(s, 40.0 - 1.0 / 524288.0, t);
  }

  // ----- Up to 204 servers -----

  predicate ShortAt(p: nat, n: nat)
    requires n > 0
  {
    var r := (8388608 * p) % n;
    5 * r > 2 * p && 2 * r < n
  }

  /** From n to m - 1, just a and b are short. */
  predicate OnlyShort(p: nat, n: nat, m: nat, a: nat, b: nat)
    requires n > 0
    decreases m - n
  {
    n >= m || ((ShortAt(p, n) <==> n == a || n == b) && OnlyShort(p, n + 1, m, a, b))
  }

  lemma {:induction false} OnlyShortMeans(p: nat, n: nat, m: nat, a: nat, b: nat, i: nat)
    requires 0 < n <= i < m && OnlyShort(p, n, m, a, b)
    ensures ShortAt(p, i) <==> i == a || i == b
    decreases m - n
  {
    hide ShortAt;
    if i > n {
      OnlyShortMeans(p, n + 1, m, a, b, i);
    }
  }

  lemma {:induction false} ExponentIs(n: nat, e: nat, from: nat)
    requires from <= e && n <= Pow2(e) && (e > from ==> Pow2(e - 1) < n)
    ensures Exponent(n, from) == e
    decreases e - from
  {
    if from < e {
      PowersGrow(from, e - 1);
      ExponentIs(n, e, from + 1);
    }
  }

  lemma {:induction false} PowersGrow(j: nat, k: nat)
    requires j <= k
    ensures Pow2(j) <= Pow2(k)
  {
    if j < k {
      PowersGrow(j, k - 1);
    }
  }

  lemma SmallPowers()
    ensures Pow2(0) == 1 && Pow2(1) == 2 && Pow2(2) == 4 && Pow2(3) == 8 && Pow2(4) == 16
    ensures Pow2(5) == 32 && Pow2(6) == 64 && Pow2(7) == 128 && Pow2(8) == 256
  {
    assert Pow2(3) == 8;
    assert Pow2(6) == 64;
  }

  lemma {:induction false} OnlyShortJoin(p: nat, n: nat, k: nat, m: nat, a: nat, b: nat)
    requires 0 < n <= k && OnlyShort(p, n, k, a, b) && OnlyShort(p, k, m, a, b)
    ensures OnlyShort(p, n, m, a, b)
    decreases k - n
  {
    hide ShortAt;
    if n < k {
      OnlyShortJoin(p, n + 1, k, m, a, b);
    }
  }

  lemma Table64()
    ensures OnlyShort(8, 7, 9, 0, 0) && OnlyShort(16, 13, 17, 0, 0) && OnlyShort(32, 26, 33, 0, 0)
    ensures OnlyShort(64, 52, 65, 61, 61)
  {
  }

  lemma Table128()
    ensures OnlyShort(128, 103, 129, 122, 122)
  {
    hide OnlyShort;
    StartOfTable128();
    EndOfTable128();
    OnlyShortJoin(128, 103, 116, 129, 122, 122);
  }

  lemma StartOfTable128()
    ensures OnlyShort(128, 103, 116, 122, 122)
  {
  }

  lemma EndOfTable128()
    ensures OnlyShort(128, 116, 129, 122, 122)
  {
  }

  /** Of the first 204 numbers just two are short. */
  lemma ShortUpTo204(n: nat)
    requires 0 < n <= 204
    ensures Short(n) <==> n == 61 || n == 122
  {
    hide OnlyShort, Pow2, Exponent;
    SmallPowers();
    Table64();
    Table128();
    var e := if n <= 1 then 0 else if n <= 2 then 1 else if n <= 4 then 2 else if n <= 8 then 3 else if n <= 16 then 4
             else if n <= 32 then 5 else if n <= 64 then 6 else if n <= 128 then 7 else 8;
    ExponentIs(n, e, 0);
    if 5 * n > 4 * Pow2(e) && n > 4 {
      if n <= 8 {
        OnlyShortMeans(8, 7, 9, 0, 0, n);
      } else if n <= 16 {
        OnlyShortMeans(16, 13, 17, 0, 0, n);
      } else if n <= 32 {
        OnlyShortMeans(32, 26, 33, 0, 0, n);
      } else if n <= 64 {
        OnlyShortMeans(64, 52, 65, 61, 61, n);
      } else {
        OnlyShortMeans(128, 103, 129, 122, 122, n);
      }
    }
  }

  /**
   The quota of equal weights whose total is at most 2 to the 24: up to 204 servers it is 40, but for 61 and
   122 servers.
   */
  lemma EqualQuotaUpTo204(w: nat, n: nat)
    requires w > 0 && 0 < n <= 204 && n * w <= 16777216
    ensures n * w > 0 && Quota(w, n * w, n) == if n == 61 || n == 122 then 39 else 40
  {
    hide Quota, Reaches, Short;
    EqualQuota(w, n);
    ShortIff(w, n);
    ShortUpTo204(n);
  }

  /** 60 equal servers have 40 groups of points each, 61 have 39. */
  lemma SixtyOneServers(w: nat)
    requires w > 0 && 61 * w <= 16777216
    ensures Quota(w, 60 * w, 60) == 40 && Quota(w, 61 * w, 61) == 39
  {
    EqualQuotaUpTo204(w, 60);
    EqualQuotaUpTo204(w, 61);
  }

  /** Twice as many servers fare alike: so 61 times any power of two is short. */
  lemma {:induction false} ShortDouble(n: nat)
    requires n > 0
    ensures Short(2 * n) <==> Short(n)
  {
    hide Exponent, Pow2;
    var e := Exponent(n, 0);
    ExponentDouble(n);
    var p := 8388608 * Pow2(e);
    assert Pow2(Exponent(2 * n, 0)) == 2 * Pow2(e);
    DoubleRest(p, n);
  }

  lemma ExponentDouble(n: nat)
    requires n > 0
    ensures Pow2(Exponent(2 * n, 0)) == 2 * Pow2(Exponent(n, 0))
  {
    var e := Exponent(n, 0);
    ExponentIs(2 * n, e + 1, 0);
  }

  lemma DoubleRest(p: nat, n: nat)
    requires n > 0
    ensures (2 * p) % (2 * n) == 2 * (p % n)
  {
    var f, r := p / n, p % n;
    var g, s := (2 * p) / (2 * n), (2 * p) % (2 * n);
    assert p == f * n + r && 2 * p == g * (2 * n) + s;
    assert (f - g) * (2 * n) == s - 2 * r;
    assert f - g >= 1 ==> (f - g) * (2 * n) >= 2 * n;
    assert f - g <= -1 ==> (f - g) * (2 * n) <= -2 * n;
  }

  // ----- More points than are allocated -----

  /** 4093 of 212529 servers have the same weight and the others none: each of them gets more than its share. */
  lemma AllocationExceeded()
    ensures Quota(1, 4093, 212529) >= 2077 && 4093 * 2077 > 40 * 212529
  {
    hide Round, Shift, Pow2, RoundEven, Times, Percent, Share;
    Powers();
    SmallPercent();
    ShareExact(1, 4093, 212529);
    IntegersFit(24, 212529);
    var x := Share(1, 4093, 212529);
    assert x == 8394757.0 / 34359738368.0 * 40.0 * 212529.0;
    ReachesUp(x);
  }

  lemma SmallPercent()
    ensures Percent(1, 4093) == 8394757.0 / 34359738368.0
  {
    hide Round, Pow2, Exponent;
    EqualPercent(1, 4093);
    TwelfthPower();
    ExponentIs(4093, 12, 0);
    NearestReciprocal(4093);
    assert Rest(4093) == 34359738368 % 4093 == 2060;
  }

  lemma TwelfthPower()
    ensures Pow2(11) == 2048 && Pow2(12) == 4096 && Pow2(13) == 8192
  {
    SmallPowers();
    Pow2Sum(6, 5);
    Pow2Sum(6, 6);
    Pow2Sum(6, 7);
  }

  /** Near 2077, floats are 2 to the -12 apart. */
  lemma ReachesUp(x: real)
    requires 2076.0 <= x < 2078.0 && x >= 2077.0 - 1.0 / 8192.0
    ensures Single(x) >= 2077.0
  {
    hide Round, Shift, Pow2, RoundEven;
    Powers();
    TwelfthPower();
    ShiftIs(x, 12);
    ShiftIs(Single(x), 12);
    RoundAt(24, x, 12);
    RoundsUpTo(Shift(x, 12), 8507392);
  }
}
