/**
 Go's conversion of an integer to float64: round to nearest, ties to even (section 4.3.1 of
 IEEE 754-2019), with a significand of 53 bits. Only integers of at most 64 bits are converted,
 so the exponent never overflows.
 */
module FloatRounding {
  import opened Values

  const SIGNIFICANDS: nat := 0x20_0000_0000_0000  // 2^53

  function Abs(x: int): nat { if x < 0 then -x else x }

  function Pow2(k: nat): (p: nat)
    ensures p > 0
  {
    if k == 0 then 1 else 2 * Pow2(k - 1)
  }

  /** How many low bits of `n` the significand has no room for. */
  function Exponent(n: nat): nat {
    if n < SIGNIFICANDS then 0 else 1 + Exponent(n / 2)
  }

  /** The distance between neighbouring floats around `n`. */
  function Ulp(n: nat): nat { Pow2(Exponent(n)) }

  function RoundMagnitude(n: nat): nat {
    var u := Ulp(n);
    var q, r := n / u, n % u;
    if 2 * r < u || (2 * r == u && q % 2 == 0) then q * u else (q + 1) * u
  }

  /** float64(n) */
  function Round(n: int): int {
    if n < 0 then 0 - RoundMagnitude(-n) else RoundMagnitude(n)
  }

  function ToFloat64(n: int): Float64 { Finite(Round(n) as real) }

  /** An integer some float64 equals. */
  ghost predicate IsFloat(f: int) {
    exists m: int, k: nat :: IsFloatBy(f, m, k)
  }

  ghost predicate IsFloatBy(f: int, m: int, k: nat) {
    Abs(m) < SIGNIFICANDS && f == m * Pow2(k)
  }

  /** f = m * 2^k with m an even significand of full width. */
  ghost predicate HasEvenSignificand(f: int) {
    exists m: int, k: nat :: m % 2 == 0 && 2 * Abs(m) >= SIGNIFICANDS && IsFloatBy(f, m, k)
  }

  // ----- arithmetic -----

  lemma {:induction false} Pow2Sum(a: nat, b: nat)
    ensures Pow2(a + b) == Pow2(a) * Pow2(b)
  {
    if a > 0 {
      Pow2Sum(a - 1, b);
      assert Pow2(a) * Pow2(b) == 2 * (Pow2(a - 1) * Pow2(b));
    }
  }

  lemma {:induction false} ExponentRange(n: nat)
    ensures n < SIGNIFICANDS * Ulp(n)
    ensures n >= SIGNIFICANDS ==> SIGNIFICANDS * Ulp(n) <= 2 * n && Exponent(n) > 0
  {
    if n >= SIGNIFICANDS {
      ExponentRange(n / 2);
      assert Ulp(n) == 2 * Ulp(n / 2);
    }
  }

  lemma Quotient(n: nat, u: nat)
    requires u > 0
    ensures n == n / u * u + n % u
  {
  }

  lemma MulLess(a: int, b: int, u: nat)
    requires a <= b
    ensures a * u <= b * u
  {
  }

  lemma MulStrict(a: int, b: int, u: nat)
    requires a * u < b * u
    ensures a < b
  {
    if b <= a { MulLess(b, a, u); }
  }

  lemma QuotientRange(n: nat)
    requires n >= SIGNIFICANDS
    ensures SIGNIFICANDS <= 2 * (n / Ulp(n)) && n / Ulp(n) < SIGNIFICANDS
  {
    var u := Ulp(n);
    var q, h := n / u, SIGNIFICANDS / 2;
    ExponentRange(n);
    Quotient(n, u);
    hide *;
    MulStrict(q, SIGNIFICANDS, u);
    assert h * u < (q + 1) * u;
    MulStrict(h, q + 1, u);
  }

  lemma NoMultipleBetween(q: int, t: int, u: nat)
    ensures t * u <= q * u || (q + 1) * u <= t * u
  {
    if t <= q { MulLess(t, q, u); } else { MulLess(q + 1, t, u); }
  }

  lemma Pow2Next(k: nat)
    ensures Pow2(k + 1) == 2 * Pow2(k)
  {
  }

  lemma Assoc(a: int, b: int, c: int)
    ensures a * (b * c) == a * b * c
  {
  }

  lemma ProductBound(m: int, a: nat, q: int, b: nat)
    requires a <= b && m <= 2 * q && 0 <= q
    ensures m * a <= q * (2 * b)
  {
    MulLess(m, 2 * q, a);
    MulLess(a, b, 2 * q);
    Assoc(q, 2, b);
  }

  /** A float with a smaller exponent is below every float of full width with a larger one. */
  lemma SmallerExponent(m: int, k: nat, q: int, e: nat)
    requires k < e && Abs(m) < SIGNIFICANDS && SIGNIFICANDS <= 2 * q
    ensures m * Pow2(k) <= q * Pow2(e)
  {
    hide Pow2;
    Pow2Sum(e - 1 - k, k);
    MulLess(1, Pow2(e - 1 - k), Pow2(k));
    Pow2Next(e - 1);
    ProductBound(m, Pow2(k), q, Pow2(e - 1));
  }

  /** No float lies strictly between two neighbouring multiples of the ulp. */
  lemma NoFloatBetween(n: nat, f: int)
    requires n >= SIGNIFICANDS && IsFloat(f)
    ensures var u := Ulp(n);
            f <= n / u * u || (n / u + 1) * u <= f
  {
    var m: int, k: nat :| IsFloatBy(f, m, k);
    QuotientRange(n);
    NoFloatAround(n / Ulp(n), Exponent(n), m, k);
  }

  lemma NoFloatAround(q: int, e: nat, m: int, k: nat)
    requires Abs(m) < SIGNIFICANDS && SIGNIFICANDS <= 2 * q
    ensures m * Pow2(k) <= q * Pow2(e) || (q + 1) * Pow2(e) <= m * Pow2(k)
  {
    hide Pow2;
    if k >= e {
      var p := Pow2(k - e);
      Pow2Sum(k - e, e);
      Assoc(m, p, Pow2(e));
      NoMultipleBetween(q, m * p, Pow2(e));
    } else {
      SmallerExponent(m, k, q, e);
    }
  }

  lemma MultipleIsFloat(q: int, e: nat)
    requires Abs(q) <= SIGNIFICANDS
    ensures IsFloat(q * Pow2(e))
    ensures q % 2 == 0 && 2 * Abs(q) >= SIGNIFICANDS ==> HasEvenSignificand(q * Pow2(e))
  {
    hide Pow2;
    var f := q * Pow2(e);
    if Abs(q) < SIGNIFICANDS {
      assert IsFloatBy(f, q, e);
    } else {
      var h := if q < 0 then -(SIGNIFICANDS / 2) else SIGNIFICANDS / 2;
      Pow2Next(e);
      Assoc(h, 2, Pow2(e));
      assert IsFloatBy(f, h, e + 1);
    }
  }

  lemma SmallIsExact(n: nat)
    requires n < SIGNIFICANDS
    ensures RoundMagnitude(n) == n
  {
    assert Ulp(n) == 1;
  }

  lemma MagnitudeIsFloat(n: nat)
    ensures IsFloat(RoundMagnitude(n))
  {
    var q := n / Ulp(n);
    if n < SIGNIFICANDS {
      SmallIsExact(n);
      assert IsFloatBy(n, n, 0);
    } else {
      QuotientRange(n);
      MultipleIsFloat(q, Exponent(n));
      MultipleIsFloat(q + 1, Exponent(n));
    }
  }

  lemma NegatedFloat(f: int)
    requires IsFloat(f)
    ensures IsFloat(-f)
  {
    var m: int, k: nat :| IsFloatBy(f, m, k);
    assert IsFloatBy(-f, -m, k);
  }

  lemma MagnitudeIsNearest(n: nat, f: int)
    requires IsFloat(f)
    ensures Abs(n - RoundMagnitude(n)) <= Abs(n - f)
    ensures 2 * Abs(n - RoundMagnitude(n)) <= Ulp(n)
  {
    var u := Ulp(n);
    if n < SIGNIFICANDS {
      SmallIsExact(n);
    } else {
      NoFloatBetween(n, f);
      Quotient(n, u);
    }
  }

  // ----- main results -----

  /** The converted integer is a float64, and no float64 is closer. */
  lemma RoundIsNearest(n: int, f: int)
    requires IsFloat(f)
    ensures IsFloat(Round(n))
    ensures Abs(n - Round(n)) <= Abs(n - f)
  {
    MagnitudeIsFloat(Abs(n));
    if n < 0 {
      NegatedFloat(f);
      NegatedFloat(RoundMagnitude(-n));
      MagnitudeIsNearest(-n, -f);
    } else {
      MagnitudeIsNearest(n, f);
    }
  }

  /** A tie lies half way between the two neighbours, and the rule then picks the even multiple. */
  lemma TieIsEven(n: nat, u: nat, q: int, r: int, low: int, high: int, rounded: int, f: int)
    requires n == low + r && high == low + u && 0 <= r < u
    requires rounded == if 2 * r < u || (2 * r == u && q % 2 == 0) then low else high
    requires f <= low || high <= f
    requires f != rounded && Abs(n - f) == Abs(n - rounded)
    ensures if q % 2 == 0 then rounded == low else rounded == high
  {
  }

  lemma EvenMultiple(f: int, q: int, e: nat)
    requires f == q * Pow2(e) && q % 2 == 0 && Abs(q) <= SIGNIFICANDS <= 2 * Abs(q)
    ensures exists q: int, e: nat :: IsEvenMultiple(f, q, e)
  {
    assert IsEvenMultiple(f, q, e);
  }

  lemma RoundedToNeighbour(n: nat)
    ensures var u := Ulp(n);
            var q, r := n / u, n % u;
            && n == q * u + r && (q + 1) * u == q * u + u && 0 <= r < u
            && RoundMagnitude(n) == if 2 * r < u || (2 * r == u && q % 2 == 0) then q * u else (q + 1) * u
  {
    Quotient(n, Ulp(n));
  }

  lemma MagnitudeTiesToEven(n: nat, f: int)
    requires IsFloat(f) && f != RoundMagnitude(n) && Abs(n - f) == Abs(n - RoundMagnitude(n))
    ensures exists q: int, e: nat :: IsEvenMultiple(RoundMagnitude(n), q, e)
  {
    if n < SIGNIFICANDS {
      SmallIsExact(n);
    } else {
      var e, u := Exponent(n), Ulp(n);
      var q := n / u;
      QuotientRange(n);
      NoFloatBetween(n, f);
      RoundedToNeighbour(n);
      assert Abs(q) == q && Abs(q + 1) == q + 1;
      hide *;
      TieIsEven(n, u, q, n % u, q * u, (q + 1) * u, RoundMagnitude(n), f);
      EvenMultiple(RoundMagnitude(n), if q % 2 == 0 then q else q + 1, e);
    }
  }

  ghost predicate IsEvenMultiple(f: int, q: int, e: nat) {
    f == q * Pow2(e) && q % 2 == 0 && Abs(q) <= SIGNIFICANDS <= 2 * Abs(q)
  }

  /** Of two floats equally close, the one with the even significand is taken. */
  lemma TiesToEven(n: int, f: int)
    requires IsFloat(f) && f != Round(n) && Abs(n - f) == Abs(n - Round(n))
    ensures HasEvenSignificand(Round(n))
  {
    hide Pow2, RoundMagnitude, HasEvenSignificand, IsFloat;
    if n < 0 {
      NegatedFloat(f);
      MagnitudeTiesToEven(-n, -f);
      var q: int, e: nat :| IsEvenMultiple(RoundMagnitude(-n), q, e);
      assert -q * Pow2(e) == -(q * Pow2(e));
      MultipleIsFloat(-q, e);
    } else {
      MagnitudeTiesToEven(n, f);
      var q: int, e: nat :| IsEvenMultiple(RoundMagnitude(n), q, e);
      MultipleIsFloat(q, e);
    }
  }

  /** An integer survives the conversion exactly when it is a float64. */
  lemma ExactIffFloat(n: int)
    ensures Round(n) == n <==> IsFloat(n)
  {
    assert IsFloatBy(0, 0, 0);
    RoundIsNearest(n, 0);
    if IsFloat(n) { RoundIsNearest(n, n); }
  }

  /** Up to 2^53 every integer survives, so the conversion is injective there; 2^53 + 1 does not. */
  lemma ExactUpTo53Bits(n: int)
    requires Abs(n) <= SIGNIFICANDS
    ensures SIGNIFICANDS == 9_007_199_254_740_992
    ensures Round(n) == n
    ensures Round(SIGNIFICANDS + 1) == SIGNIFICANDS
  {
    ExactIffFloat(n);
    if Abs(n) < SIGNIFICANDS {
      assert IsFloatBy(n, n, 0);
    } else {
      assert Pow2(1) == 2;
      assert IsFloatBy(n, n / 2, 1);
    }
    assert Exponent(SIGNIFICANDS / 2) == 0;
    assert Ulp(SIGNIFICANDS + 1) == 2;
  }

  lemma RoundIsMonotone(a: int, b: int)
    requires a <= b
    ensures Round(a) <= Round(b)
  {
    assert IsFloatBy(0, 0, 0);
    RoundIsNearest(a, 0);
    RoundIsNearest(b, 0);
    RoundIsNearest(a, Round(b));
    RoundIsNearest(b, Round(a));
  }

  lemma {:induction false} ExponentBound(n: nat, k: nat)
    requires n < SIGNIFICANDS * Pow2(k)
    ensures Exponent(n) <= k
  {
    if n >= SIGNIFICANDS {
      ExponentBound(n / 2, k - 1);
    }
  }

  /** Half a unit in the last place: over all of int64, at most 512. */
  lemma Int64Error(n: Int64)
    ensures 2 * Abs(n - Round(n)) <= Ulp(Abs(n))
    ensures Abs(n - Round(n)) <= 512
  {
    assert IsFloatBy(0, 0, 0);
    MagnitudeIsNearest(Abs(n), 0);
    if n == -0x8000_0000_0000_0000 {
      Pow2Of10();
      Pow2Sum(1, 10);
      assert Pow2(1) == 2;
      assert IsFloatBy(n, -(SIGNIFICANDS / 2), 11);
      ExactIffFloat(n);
    } else {
      Pow2Of10();
      ExponentBound(Abs(n), 10);
      Pow2Sum(10 - Exponent(Abs(n)), Exponent(Abs(n)));
      MulLess(1, Pow2(10 - Exponent(Abs(n))), Ulp(Abs(n)));
    }
  }

  lemma Pow2Of10()
    ensures Pow2(10) == 1024
  {
    assert Pow2(5) == 32;
    Pow2Sum(5, 5);
  }

  // ----- the number that arrives -----

  /** An integer float64, with none closer to n, and with an even significand where another one is as close. */
  ghost predicate IsRounded(m: int, n: int) {
    && IsFloat(m)
    && forall f | IsFloat(f) ::
         Abs(n - m) <= Abs(n - f) && (f != m && Abs(n - m) == Abs(n - f) ==> HasEvenSignificand(m))
  }

  /** The number stands for the integer. */
  ghost predicate Arrives(x: Float64, n: int) {
    x.Finite? && exists m :: IsRounded(m, n) && x.v == m as real
  }

  lemma ConversionArrives(n: int)
    ensures Arrives(ToFloat64(n), n)
  {
    assert IsFloatBy(0, 0, 0);
    RoundIsNearest(n, 0);
    forall f | IsFloat(f)
      ensures Abs(n - Round(n)) <= Abs(n - f)
      ensures f != Round(n) && Abs(n - Round(n)) == Abs(n - f) ==> HasEvenSignificand(Round(n))
    {
      RoundIsNearest(n, f);
      if f != Round(n) && Abs(n - f) == Abs(n - Round(n)) { TiesToEven(n, f); }
    }
    hide Round, IsFloat, HasEvenSignificand;
    assert IsRounded(Round(n), n);
  }

  /** The number lies within half a unit in the last place, and within 512, of any 64-bit integer. */
  lemma ConversionError(n: Int64)
    ensures ToFloat64(n).Finite?
    ensures -(Ulp(Abs(n)) as real) <= 2.0 * (ToFloat64(n).v - n as real) <= Ulp(Abs(n)) as real
    ensures -512.0 <= ToFloat64(n).v - n as real <= 512.0
  {
    Int64Error(n);
    hide Ulp;
    assert ToFloat64(n).v == Round(n) as real;
    hide Round;
    RealError(n, Round(n), Ulp(Abs(n)));
  }

  lemma RealError(n: int, m: int, u: nat)
    requires 2 * Abs(n - m) <= u && Abs(n - m) <= 512
    ensures -(u as real) <= 2.0 * (m as real - n as real) <= u as real
    ensures -512.0 <= m as real - n as real <= 512.0
  {
    assert m as real - n as real == (m - n) as real;
    assert 2.0 * (m - n) as real == (2 * (m - n)) as real;
  }

  lemma ConversionKeepsOrder(a: int, b: int)
    requires a <= b
    ensures ToFloat64(a).Finite? && ToFloat64(b).Finite? && ToFloat64(a).v <= ToFloat64(b).v
  {
    RoundIsMonotone(a, b);
    hide Round;
  }
}
