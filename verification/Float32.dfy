/** Percentages are computed in IEEE 754 binary32 (Go's float32) and truncated.
    Values here are non-negative and far from the subnormal and overflow ranges,
    so a binary32 value is an integer significand below 2^24 times a power of two. */
module Float32 {
  function RoundHalfEven(x: real): (r: int)
    ensures r as real - 0.5 <= x <= r as real + 0.5
    ensures r == x.Floor || r == x.Floor + 1
    ensures x == x.Floor as real ==> r == x.Floor
  {
    var f := x.Floor;
    var d := x - f as real;
    if d < 0.5 then f
    else if d > 0.5 then f + 1
    else if f % 2 == 0 then f
    else f + 1
  }

  function Round(x: real): (r: real)
    requires x == 0.0 || 128.0 * x >= 1.0
    ensures -x <= 16777216.0 * (r - x) <= x
    decreases if x >= 16777216.0 then x.Floor else 0,
              if x < 16777216.0 then (128.0 * (16777216.0 - x)).Floor else 0
  {
    if x == 0.0 then 0.0
    else if x >= 16777216.0 then 2.0 * Round(x / 2.0)
    else if x < 8388608.0 then Round(2.0 * x) / 2.0
    else RoundHalfEven(x) as real
  }

  lemma {:induction false} RoundInBinade(x: real)
    requires 8388608.0 <= x < 16777216.0
    ensures Round(x) == RoundHalfEven(x) as real
  {
  }

  lemma {:induction false} RoundHalfEvenKeepsIntegers(x: real, k: int)
    ensures x >= k as real ==> RoundHalfEven(x) >= k
    ensures x <= k as real ==> RoundHalfEven(x) <= k
  {
  }

  /** Integers below 2^24 are binary32 values, so rounding never crosses one of them. */
  lemma {:induction false} RoundKeepsIntegers(x: real, k: nat)
    requires x == 0.0 || 128.0 * x >= 1.0
    requires x < 16777216.0
    ensures x >= k as real ==> Round(x) >= k as real
    ensures x <= k as real ==> Round(x) <= k as real
    decreases (128.0 * (16777216.0 - x)).Floor
  {
    if x == 0.0 {
    } else if x < 8388608.0 {
      RoundKeepsIntegers(2.0 * x, 2 * k);
      assert Round(x) == Round(2.0 * x) / 2.0;
      assert (2 * k) as real == 2.0 * k as real;
    } else {
      RoundInBinade(x);
      RoundHalfEvenKeepsIntegers(x, k);
    }
  }

  /** A product of two rounded factors is zero or well above the smallest value. */
  lemma {:induction false} ProductInRange(a: real, b: real)
    requires (a == 0.0 || a >= 0.99) && (b == 0.0 || b >= 0.99)
    ensures a * b == 0.0 || a * b >= 0.98
  {
    if a != 0.0 && b != 0.0 {
      assert a * b >= 0.99 * b;
    }
  }

  function RoundCount(n: nat): (r: real)
    ensures r == 0.0 || r >= 0.99
    ensures n < 16777216 ==> r == n as real
  {
    if n < 16777216 then RoundKeepsIntegers(n as real, n); Round(n as real) else Round(n as real)
  }

  /** float32(count) * float32(percent), rounded. */
  function Product(count: nat, percent: nat): (p: real)
    ensures p == 0.0 || p >= 0.97
  {
    ProductInRange(RoundCount(count), RoundCount(percent));
    Round(RoundCount(count) * RoundCount(percent))
  }

  /** int(float32(count) * float32(percent) / 100.0) */
  function Percent(count: nat, percent: nat): (r: nat) {
    Round(Product(count, percent) / 100.0).Floor
  }

  lemma {:induction false} ProductExact(count: nat, percent: nat)
    requires count * percent < 16777216
    ensures Product(count, percent) == (count * percent) as real
  {
    var m := count * percent;
    if m == 0 {
      assert count == 0 || percent == 0;
      assert RoundCount(count) * RoundCount(percent) == 0.0;
    } else {
      FactorBelow(count, percent);
      FactorBelow(percent, count);
      assert RoundCount(count) * RoundCount(percent) == m as real;
      RoundKeepsIntegers(m as real, m);
    }
  }

  lemma {:induction false} FactorBelow(a: nat, b: nat)
    requires a * b > 0
    ensures a <= a * b
  {
    assert b >= 1;
    assert a * b - a == a * (b - 1);
  }

  /** "Rounding down": as long as the product is exact in binary32, the percentage is the integer quotient. */
  lemma {:induction false} PercentRoundsDown(count: nat, percent: nat)
    requires count * percent < 16777216
    ensures Percent(count, percent) == count * percent / 100
  {
    ProductExact(count, percent);
    var m := count * percent;
    var q := m / 100;
    assert q as real <= m as real / 100.0 <= q as real + 0.99;
    RoundKeepsIntegers(m as real / 100.0, q);
  }

  /** Beyond that range the rounding of the count itself shows: one node of 2^24 + 1 is lost at 100 percent. */
  lemma {:induction false} PercentLosesLargeCounts()
    ensures Percent(16777217, 100) == 16777216 < 16777217 * 100 / 100
  {
    assert RoundHalfEven(8388608.5) == 8388608;
    RoundInBinade(8388608.5);
    assert RoundCount(16777217) == 16777216.0;
    RoundInBinade(13107200.0);
    var p := 26214400.0;
    while p < 1677721600.0
      invariant p in {26214400.0, 52428800.0, 104857600.0, 209715200.0, 419430400.0, 838860800.0, 1677721600.0}
      invariant Round(p) == p
      decreases 1677721600.0 - p
    {
      assert Round(2.0 * p) == 2.0 * Round(p);
      p := 2.0 * p;
    }
    assert Product(16777217, 100) == 1677721600.0;
    RoundInBinade(8388608.0);
    assert Round(16777216.0) == 2.0 * Round(8388608.0);
  }

  // ----- The threshold -----

  /** In the binade above 2^24 only even integers are binary32 values; rounding never crosses one. */
  lemma {:induction false} RoundAbove(x: real, k: int)
    requires 16777216.0 <= x < 33554432.0
    ensures x <= (2 * k) as real ==> Round(x) <= (2 * k) as real
    ensures x >= (2 * k) as real ==> Round(x) >= (2 * k) as real
  {
    RoundInBinade(x / 2.0);
    RoundHalfEvenKeepsIntegers(x / 2.0, k);
    assert (2 * k) as real == 2.0 * k as real;
  }

  /** Between 2^24 and 16777298 a count stays in that range. */
  lemma {:induction false} RoundStays(x: real)
    requires 16777216.0 <= x <= 16777298.0
    ensures 16777216.0 <= Round(x) <= 16777298.0
  {
    RoundAbove(x, 8388608);
    RoundAbove(x, 8388649);
  }

  lemma {:induction false} SmallFactorsStay(count: nat, percent: nat)
    requires 16777216 <= count * percent <= 16777298 && count < 16777216 && percent < 16777216
    ensures 16777216.0 <= Product(count, percent) <= 16777298.0
  {
    hide Product;
    SmallFactors(count, percent);
    hide Round;
    RoundStays((count * percent) as real);
  }

  lemma {:induction false} SmallFactors(count: nat, percent: nat)
    requires count < 16777216 && percent < 16777216
    ensures Product(count, percent) == Round((count * percent) as real)
  {
    hide Round, RoundCount;
    assert RoundCount(count) == count as real && RoundCount(percent) == percent as real;
    assert (count as real) * (percent as real) == (count * percent) as real;
  }

  lemma {:induction false} LargeFactorStays(a: nat)
    requires 16777216 <= a <= 16777298
    ensures 16777216.0 <= Product(a, 1) <= 16777298.0 && 16777216.0 <= Product(1, a) <= 16777298.0
  {
    RoundStays(a as real);
    var r := RoundCount(a);
    RoundStays(r);
    assert RoundCount(1) == 1.0;
    assert r * 1.0 == r && 1.0 * r == r;
  }

  lemma {:induction false} ProductStays(count: nat, percent: nat)
    requires 16777216 <= count * percent <= 16777298
    ensures 16777216.0 <= Product(count, percent) <= 16777298.0
  {
    hide Product;
    if count >= 16777216 {
      LargeFactor(count, percent);
      LargeFactorStays(count);
    } else if percent >= 16777216 {
      LargeFactor(percent, count);
      LargeFactorStays(percent);
    } else {
      SmallFactorsStay(count, percent);
    }
  }

  lemma {:induction false} Multiples(a: nat, b: nat)
    ensures b == 0 ==> a * b == 0
    ensures b == 1 ==> a * b == a
    ensures b >= 2 ==> a * b >= 2 * a
  {
    assert a * b == 2 * a + a * (b - 2);
  }

  lemma {:induction false} LargeFactor(a: nat, b: nat)
    requires a >= 16777216 && 16777216 <= a * b <= 16777298
    ensures b == 1 && a <= 16777298
  {
    Multiples(a, b);
  }

  /** The quotient of such a product stays below the next integer. */
  lemma {:induction false} QuotientStays(x: real)
    requires 16777216.0 <= x <= 16777298.0
    ensures Round(x / 100.0).Floor == 167772
  {
    var q := x / 100.0;
    assert 167772.16 <= q <= 167772.98;
    assert -q <= 16777216.0 * (Round(q) - q) <= q;
    assert 167772.0 <= Round(q) < 167773.0;
  }

  /** The first product for which the percentage is not the integer quotient. */
  const FIRST_INEXACT: nat := 16777299

  lemma {:induction false} ExactBelowThreshold(count: nat, percent: nat)
    requires count * percent < FIRST_INEXACT
    ensures Percent(count, percent) == count * percent / 100
  {
    if count * percent < 16777216 {
      PercentRoundsDown(count, percent);
    } else {
      ProductStays(count, percent);
      QuotientStays(Product(count, percent));
    }
  }

  /** One percent of 16777299 nodes is 167773: the product is rounded up to the next even integer. */
  lemma {:induction false} InexactAtThreshold()
    ensures Percent(FIRST_INEXACT, 1) == 167773 == FIRST_INEXACT * 1 / 100 + 1
  {
    RoundInBinade(8388649.5);
    assert RoundHalfEven(8388649.5) == 8388650;
    assert RoundCount(FIRST_INEXACT) == 16777300.0;
    RoundInBinade(8388650.0);
    assert Product(FIRST_INEXACT, 1) == 16777300.0;
    RoundKeepsIntegers(167773.0, 167773);
  }

  /** The percentage is the integer quotient for all products below a bound exactly if the bound is at most 16777299. */
  lemma {:induction false} PercentThreshold(bound: nat)
    ensures (forall count: nat, percent: nat :: count * percent < bound ==> Percent(count, percent) == count * percent / 100)
              <==> bound <= FIRST_INEXACT
  {
    if bound <= FIRST_INEXACT {
      forall count: nat, percent: nat | count * percent < bound ensures Percent(count, percent) == count * percent / 100 {
        ExactBelowThreshold(count, percent);
      }
    } else {
      InexactAtThreshold();
      assert FIRST_INEXACT * 1 < bound;
    }
  }
}
