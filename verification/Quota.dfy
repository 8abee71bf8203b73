/** How many points ketama.c gives to a server, in the floating-point arithmetic that it uses for that. */
module Quotas {
  import opened Bytes
  import opened Floats

  /** (float)memory / (float)total */
  function Percent(memory: nat, total: nat): (r: real)
    requires total > 0
    ensures r >= 0.0
  {
    Positive(24, total as real);
    Single(Single(memory as real) / Single(total as real))
  }

  /** pct * 40.0 * (float)numservers, of which the factor 40.0 makes a double. */
  function Share(memory: nat, total: nat, numservers: nat): (r: real)
    requires total > 0
    ensures r >= 0.0
  {
    Double(Times(Double(Times(Percent(memory, total), 40.0)), Single(numservers as real)))
  }

  /** The number of groups of four points: floorf of that. */
  function Quota(memory: nat, total: nat, numservers: nat): nat
    requires total > 0
  {
    Single(Share(memory, total, numservers)).Floor
  }

  lemma Powers()
    ensures Pow2(24) == 16777216 && Pow2(53) == 9007199254740992
  {
    assert Pow2(1) == 2 && Pow2(2) == 4 && Pow2(3) == 8 && Pow2(5) == 32;
    Pow2Sum(3, 3);
    Pow2Sum(6, 6);
    Pow2Sum(12, 12);
    Pow2Sum(24, 24);
    Pow2Sum(48, 5);
  }

  lemma TimesForty(x: real, m: nat, k: nat, l: nat)
    requires x >= 0.0 && Shift(x, k) == Shift(m as real, l)
    ensures Shift(Times(x, 40.0), k) == Shift((5 * m) as real, l + 3)
  {
    ShiftFactor(x, k, 40.0);
    ShiftFactor(m as real, l, 40.0);
    var z := (5 * m) as real;
    assert Shift(z, 1) == 2.0 * z && Shift(z, 2) == 4.0 * z && Shift(z, 3) == 8.0 * z;
    ShiftMore(z, 3, l);
  }

  lemma IntegerProduct(m: nat, n: nat, bound: nat)
    requires n <= bound
    ensures 0 <= m * n <= m * bound && (m * n) as real == m as real * n as real
  {
    assert m * (bound - n) >= 0;
  }

  lemma ShiftProduct(x: real, m: nat, k: nat, l: nat, y: real, n: nat, i: nat, j: nat)
    requires Shift(x, k) == Shift(m as real, l) && Shift(y, i) == Shift(n as real, j)
    ensures m * n >= 0 && Shift(Times(x, y), k + i) == Shift((m * n) as real, l + j)
  {
    hide Shift;
    ShiftTimes(x, k, y, i);
    ShiftTimes(m as real, l, n as real, j);
    IntegerProduct(m, n, n);
  }

  /** A product with 40, which has 3 bits, and a product of that with a number of 24 bits, fit into 53. */
  lemma {:induction false} ExactTimes(x: real, m: nat, k: nat, l: nat, y: real, n: nat, i: nat, j: nat)
    requires x >= 0.0 && Shift(x, k) == Shift(m as real, l) && m <= 16777216
    requires y >= 0.0 && Shift(y, i) == Shift(n as real, j) && n <= 16777216
    ensures Double(Times(x, 40.0)) == Times(x, 40.0)
    ensures Double(Times(Times(x, 40.0), y)) == Times(Times(x, 40.0), y)
  {
    hide Shift, Round, Pow2, Times;
    Powers();
    TimesForty(x, m, k, l);
    var q: nat, z := 5 * m, Times(x, 40.0);
    Exact(53, z, q, k, l + 3);
    ShiftProduct(z, q, k, l + 3, y, n, i, j);
    IntegerProduct(q, n, 16777216);
    Exact(53, Times(z, y), q * n, k + i, l + 3 + j);
  }

  /** So the products of doubles are exact, and only floats are rounded. */
  lemma {:induction false} ShareExact(memory: nat, total: nat, numservers: nat)
    requires total > 0
    ensures Share(memory, total, numservers) == Percent(memory, total) * 40.0 * Single(numservers as real)
  {
    hide Round, Shift, Pow2;
    Powers();
    Positive(24, total as real);
    var m, k, l := Mantissa(24, Single(memory as real) / Single(total as real));
    var n, i, j := Mantissa(24, numservers as real);
    ExactTimes(Percent(memory, total), m, k, l, Single(numservers as real), n, i, j);
  }

  // ----- How near a quota is to the exact share -----

  const UNIT: real := 16777216.0   // 2 to the 24

  lemma SingleNear(x: real)
    requires x >= 0.0
    ensures x * (1.0 - 1.0 / UNIT) <= Single(x) <= x * (1.0 + 1.0 / UNIT)
  {
    hide Round, Pow2;
    Powers();
    RoundNear(24, x);
  }

  lemma ProductAtMost(x: real, y: real, u: real, v: real)
    requires 0.0 <= x <= u && 0.0 <= y <= v
    ensures x * y <= u * v
  {
    assert u * v - x * y == (u - x) * v + x * (v - y);
  }

  /** The quotient of two numbers that are nearly m and t. */
  lemma QuotientNear(m: real, t: real, m': real, t': real, r: real)
    requires m >= 0.0 && t > 0.0 && t' > 0.0 && r == m' / t'
    requires m * (1.0 - 1.0 / UNIT) <= m' <= m * (1.0 + 1.0 / UNIT)
    requires t * (1.0 - 1.0 / UNIT) <= t' <= t * (1.0 + 1.0 / UNIT)
    ensures r >= 0.0 && m * (1.0 - 2.0 / UNIT) <= r * t <= m * (1.0 + 2.01 / UNIT)
  {
    assert r * t' == m';
    ProductAtMost(r, t * (1.0 - 1.0 / UNIT), r, t');
    ProductAtMost(r, t', r, t * (1.0 + 1.0 / UNIT));
    var q := r * t;
    assert r * (t * (1.0 - 1.0 / UNIT)) == q * (1.0 - 1.0 / UNIT);
    assert r * (t * (1.0 + 1.0 / UNIT)) == q * (1.0 + 1.0 / UNIT);
  }

  lemma RoundedNear(r: real, p: real, t: real)
    requires r >= 0.0 && t > 0.0
    requires r * (1.0 - 1.0 / UNIT) <= p <= r * (1.0 + 1.0 / UNIT)
    ensures r * t * (1.0 - 1.0 / UNIT) <= p * t <= r * t * (1.0 + 1.0 / UNIT)
  {
    ProductAtMost(p, t, r * (1.0 + 1.0 / UNIT), t);
    ProductAtMost(r * (1.0 - 1.0 / UNIT), t, p, t);
    var q := r * t;
    assert r * (1.0 + 1.0 / UNIT) * t == q * (1.0 + 1.0 / UNIT);
    assert r * (1.0 - 1.0 / UNIT) * t == q * (1.0 - 1.0 / UNIT);
  }

  lemma RoundedQuotientNear(m: real, t: real, m': real, t': real, r: real, p: real)
    requires m >= 0.0 && t > 0.0 && t' > 0.0 && r == m' / t'
    requires m * (1.0 - 1.0 / UNIT) <= m' <= m * (1.0 + 1.0 / UNIT)
    requires t * (1.0 - 1.0 / UNIT) <= t' <= t * (1.0 + 1.0 / UNIT)
    requires r * (1.0 - 1.0 / UNIT) <= p <= r * (1.0 + 1.0 / UNIT)
    ensures m * (1.0 - 3.0 / UNIT) <= p * t <= m * (1.0 + 3.02 / UNIT)
  {
    QuotientNear(m, t, m', t', r);
    RoundedNear(r, p, t);
    var q, x := r * t, p * t;
    assert q * (1.0 - 1.0 / UNIT) <= x <= q * (1.0 + 1.0 / UNIT);
  }

  lemma PercentNear(memory: nat, total: nat)
    requires total > 0
    ensures memory as real * (1.0 - 3.0 / UNIT) <= Percent(memory, total) * total as real
    ensures Percent(memory, total) * total as real <= memory as real * (1.0 + 3.02 / UNIT)
  {
    hide Round;
    var m, t := memory as real, total as real;
    Positive(24, t);
    SingleNear(m);
    SingleNear(t);
    var r := Single(m) / Single(t);
    SingleNear(r);
    RoundedQuotientNear(m, t, Single(m), Single(t), r, Single(r));
  }

  /** The share, times the total, is nearly 40 times the servers times the memory. */
  lemma ShareNear(memory: nat, total: nat, numservers: nat)
    requires total > 0
    ensures var s, exact := Single(Share(memory, total, numservers)) * total as real,
                                   40.0 * (numservers as real * memory as real);
            exact * (1.0 - 5.0 / UNIT) <= s <= exact * (1.0 + 5.1 / UNIT)
  {
    hide Single, Share, Percent;
    var m, t, n := memory as real, total as real, numservers as real;
    var p, k := Percent(memory, total), Single(n);
    var x := Share(memory, total, numservers);
    ShareExact(memory, total, numservers);
    PercentNear(memory, total);
    SingleNear(n);
    SingleNear(x);
    var pt, nm := p * t, n * m;
    ProductAtMost(k, pt, n * (1.0 + 1.0 / UNIT), m * (1.0 + 3.02 / UNIT));
    ProductAtMost(n * (1.0 - 1.0 / UNIT), m * (1.0 - 3.0 / UNIT), k, pt);
    assert n * (1.0 + 1.0 / UNIT) * (m * (1.0 + 3.02 / UNIT)) == nm * ((1.0 + 1.0 / UNIT) * (1.0 + 3.02 / UNIT));
    assert n * (1.0 - 1.0 / UNIT) * (m * (1.0 - 3.0 / UNIT)) == nm * ((1.0 - 1.0 / UNIT) * (1.0 - 3.0 / UNIT));
    assert x * t == 40.0 * (k * pt);
    TimesMonotone(x * (1.0 - 1.0 / UNIT), Single(x), t);
    TimesMonotone(Single(x), x * (1.0 + 1.0 / UNIT), t);
    var xt := x * t;
    assert x * (1.0 - 1.0 / UNIT) * t == xt * (1.0 - 1.0 / UNIT);
    assert x * (1.0 + 1.0 / UNIT) * t == xt * (1.0 + 1.0 / UNIT);
  }

  // ----- The consequences -----

  lemma FloorTimes(s: real, q: real, t: real)
    requires q <= s < q + 1.0 && t > 0.0
    ensures Times(q, t) <= Times(s, t) < Times(q, t) + t
  {
    TimesMonotone(q, s, t);
    var d := q + 1.0 - s;
    assert Times(d, t) > 0.0;
    assert Times(d, t) == Times(q, t) + t - Times(s, t);
  }

  lemma CastProduct(m: nat, n: nat)
    ensures (m * n) as real == Times(m as real, n as real)
  {
  }

  /** The number of groups, in integers. */
  lemma QuotaNear(memory: nat, total: nat, numservers: nat)
    requires total > 0
    ensures var q, exact := Quota(memory, total, numservers), 40 * (numservers * memory);
            && (q * total) * 167772160 <= exact * 167772211
            && exact * 16777211 < ((q + 1) * total) * 16777216
  {
    hide Share, Single, Percent;
    ShareNear(memory, total, numservers);
    CastProduct(numservers, memory);
    FloorNear(Single(Share(memory, total, numservers)), Quota(memory, total, numservers), total, numservers * memory);
  }

  lemma FloorNear(s: real, q: nat, total: nat, exact: nat)
    requires s >= 0.0 && q == s.Floor && total > 0
    requires 40.0 * exact as real * (1.0 - 5.0 / UNIT) <= Times(s,
                                     total as real) <= 40.0 * exact as real * (1.0 + 5.1 / UNIT)
    ensures (q * total) * 167772160 <= 40 * exact * 167772211
    ensures 40 * exact * 16777211 < ((q + 1) * total) * 16777216
  {
    hide Times;
    FloorTimes(s, q as real, total as real);
    CastProduct(q, total);
    InIntegers(q * total, q * total + total, exact);
  }

  /**
   The points of a server are at most its proportional share of 160 per server, and less than 4 below it, up
   to the rounding of floats: a relative error of 5.1 units above, and 5 units below.
   */
  lemma QuotaIsShare(memory: nat, total: nat, numservers: nat)
    requires total > 0
    ensures var points, share := 4 * Quota(memory, total, numservers), 160 * (numservers * memory);
            && points * total * 167772160 <= share * 167772211
            && share * 16777211 < (points + 4) * total * 16777216
  {
    hide Quota;
    QuotaNear(memory, total, numservers);
    var q := Quota(memory, total, numservers);
    var low, high := q * total, (q + 1) * total;
    assert 4 * q * total == 4 * low && (4 * q + 4) * total == 4 * high;
  }

  lemma InIntegers(low: int, high: int, exact: int)
    requires low as real <= 40.0 * exact as real * (1.0 + 5.1 / UNIT)
    requires high as real > 40.0 * exact as real * (1.0 - 5.0 / UNIT)
    ensures low * 167772160 <= 40 * exact * 167772211
    ensures 40 * exact * 16777211 < high * 16777216
  {
  }

  // ----- Closer, from above -----

  /** The number of servers is a float; the percentage is at most c units too large. */
  lemma ShareAtMost(memory: nat, total: nat, numservers: nat, c: real)
    requires 0 < total && numservers <= 16777216 && 0.0 <= c <= 4.0
    requires Percent(memory, total) * total as real <= memory as real * (1.0 + c / UNIT)
    ensures Single(Share(memory, total, numservers)) * total as real
         <= 40.0 * (numservers as real * memory as real) * (1.0 + (c + 1.01) / UNIT)
  {
    hide Round, Share, Percent, Pow2;
    Powers();
    IntegersFit(24, numservers);
    ShareExact(memory, total, numservers);
    var x := Share(memory, total, numservers);
    SingleNear(x);
    LastRounding(Percent(memory, total), total as real, memory as real, numservers as real, x, Single(x), c);
  }

  lemma LastRounding(p: real, t: real, m: real, n: real, x: real, s: real, c: real)
    requires p >= 0.0 && t > 0.0 && m >= 0.0 && n >= 0.0 && s >= 0.0 && 0.0 <= c <= 4.0
    requires p * t <= m * (1.0 + c / UNIT) && x == p * 40.0 * n && s <= x * (1.0 + 1.0 / UNIT)
    ensures s * t <= 40.0 * (n * m) * (1.0 + (c + 1.01) / UNIT)
  {
    var pt, nm := p * t, n * m;
    ProductAtMost(n, pt, n, m * (1.0 + c / UNIT));
    assert n * (m * (1.0 + c / UNIT)) == nm * (1.0 + c / UNIT);
    ProductAtMost(s, t, x * (1.0 + 1.0 / UNIT), t);
    assert x * (1.0 + 1.0 / UNIT) * t == 40.0 * (n * pt) * (1.0 + 1.0 / UNIT);
    NotNegative(n, m);
    Factor(nm, c);
  }

  lemma NotNegative(x: real, y: real)
    requires x >= 0.0 && y >= 0.0
    ensures x * y >= 0.0
  {
  }

  lemma Factor(y: real, c: real)
    requires y >= 0.0 && 0.0 <= c <= 4.0
    ensures 40.0 * (y * (1.0 + c / UNIT)) * (1.0 + 1.0 / UNIT) <= 40.0 * y * (1.0 + (c + 1.01) / UNIT)
  {
    var a := 1.0 + (c + 1.01) / UNIT - (1.0 + c / UNIT) * (1.0 + 1.0 / UNIT);
    assert a >= 0.0;
    NotNegative(y, a);
  }

  lemma PercentAtMost(memory: nat, total: nat)
    requires 0 < total && memory <= total
    ensures total <= 16777216 ==> Percent(memory, total) * total as real <= memory as real * (1.0 + 1.0 / UNIT)
    ensures Percent(memory, total) * total as real <= memory as real * (1.0 + 3.02 / UNIT)
  {
    hide Round, Pow2;
    Powers();
    PercentNear(memory, total);
    if total <= 16777216 {
      IntegersFit(24, memory);
      IntegersFit(24, total);
      var m, t := memory as real, total as real;
      SingleNear(m / t);
      RoundedNear(m / t, Single(m / t), t);
      assert m / t * t == m;
    }
  }

  /** The excess of a quota over its share, in hundredths of a unit. */
  function Excess(total: nat): nat {
    if total <= 16777216 then 201 else 403
  }

  /** A quota is at most the share, up to two roundings if all weights are floats, and up to four otherwise. */
  lemma QuotaAtMost(memory: nat, total: nat, numservers: nat)
    requires 0 < total && memory <= total && numservers <= 16777216
    ensures (Quota(memory, total, numservers) * total) * 1677721600
         <= 40 * (numservers * memory) * (1677721600 + Excess(total))
  {
    hide Share, Single, Percent;
    PercentAtMost(memory, total);
    var c := if total <= 16777216 then 1.0 else 3.02;
    ShareAtMost(memory, total, numservers, c);
    CastProduct(numservers, memory);
    FloorAtMost(Single(Share(memory, total, numservers)), Quota(memory, total, numservers), total,
                numservers * memory, if total <= 16777216 then 2.01 else 4.03, Excess(total));
  }

  lemma FloorAtMost(s: real, q: nat, total: nat, exact: nat, c: real, d: nat)
    requires s >= 0.0 && q == s.Floor && total > 0 && 100.0 * c == d as real
    requires Times(s, total as real) <= 40.0 * exact as real * (1.0 + c / UNIT)
    ensures (q * total) * 1677721600 <= 40 * exact * (1677721600 + d)
  {
    hide Times;
    FloorTimes(s, q as real, total as real);
    CastProduct(q, total);
    CastProduct(40 * exact, d);
    UnitsAtMost((q * total) as real, (40 * exact) as real, c);
    TimesHundred((40 * exact) as real, c, d as real);
  }

  lemma UnitsAtMost(low: real, exact: real, c: real)
    requires low <= exact * (1.0 + c / UNIT)
    ensures low * 1677721600.0 <= exact * 1677721600.0 + 100.0 * Times(exact, c)
  {
  }

  lemma TimesHundred(x: real, c: real, d: real)
    requires 100.0 * c == d
    ensures 100.0 * Times(x, c) == Times(x, d)
  {
  }

  // ----- The same in exact arithmetic -----

  /** The number of groups, if nothing were rounded before the last step. */
  function ExactQuota(memory: nat, total: nat, numservers: nat): nat
    requires total > 0
  {
    (40 * (numservers * memory)) / total
  }

  /** Then the points of a server are at most its share, and less than 4 below it. */
  lemma ExactIsShare(memory: nat, total: nat, numservers: nat)
    requires total > 0
    ensures var points, share := 4 * ExactQuota(memory, total, numservers), 160 * (numservers * memory);
            points * total <= share < (points + 4) * total
  {
    var q, exact := ExactQuota(memory, total, numservers), 40 * (numservers * memory);
    assert q * total <= exact < q * total + total;
    assert 4 * q * total == 4 * (q * total);
  }

  /** With equal weights it is always 40. */
  lemma ExactEqual(w: nat, n: nat)
    requires w > 0 && n > 0
    ensures n * w > 0 && ExactQuota(w, n * w, n) == 40
  {
    var total := n * w;
    assert total >= w;
    var q := (40 * total) / total;
    assert (40 - q) * total == 40 * total - q * total;
    assert q >= 41 ==> (40 - q) * total <= -total;
    assert q <= 39 ==> (40 - q) * total >= total;
  }

  lemma ExactBounds(memory: nat, total: nat, numservers: nat)
    requires total > 0
    ensures var q, exact := ExactQuota(memory, total, numservers), 40 * (numservers * memory);
            q * total <= exact < q * total + total
  {
  }

  lemma FewServers(memory: nat, total: nat, numservers: nat)
    requires memory <= total && numservers <= 80000
    ensures 0 <= numservers * memory <= 80000 * total
  {
    assert numservers * (total - memory) >= 0;
    assert (80000 - numservers) * total >= 0;
  }

  /** For up to 80000 servers the code's quota is the exact one, or one more or less. */
  lemma NearExact(memory: nat, total: nat, numservers: nat)
    requires 0 < total && memory <= total && numservers <= 80000
    ensures -1 <= Quota(memory, total, numservers) - ExactQuota(memory, total, numservers) <= 1
  {
    hide Quota, ExactQuota;
    QuotaNear(memory, total, numservers);
    ExactBounds(memory, total, numservers);
    FewServers(memory, total, numservers);
    WithinOne(Quota(memory, total, numservers), ExactQuota(memory, total, numservers), 40 * (numservers * memory),
              total);
  }

  lemma WithinOne(q: int, r: int, exact: int, total: int)
    requires total > 0 && 0 <= exact <= 3200000 * total && r * total <= exact < r * total + total
    requires (q * total) * 167772160 <= exact * 167772211
    requires exact * 16777211 < ((q + 1) * total) * 16777216
    ensures -1 <= q - r <= 1
  {
    var d := q - r;
    assert q * total == r * total + d * total && (q + 1) * total == q * total + total;
    assert d >= 2 ==> d * total >= 2 * total;
    assert d <= -2 ==> d * total <= -2 * total;
  }
}
