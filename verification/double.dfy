/** Java's `double`, as far as `Double.valueOf` of a decimal literal uses
    it: the IEEE 754 binary64 value nearest the literal's exact value, a
    tie going to the even significand, and infinity once the value rounds
    past the largest finite double. Values are exact reals; the sign of
    zero and NaN, which no JSON number literal produces, are not
    represented.

    Powers of two are applied by doubling and halving (`Scale`), so that
    every step of the reasoning stays linear. */
module JavaDouble {
  import opened Wrappers

  /** Bits of significand, the leading one included. */
  const PRECISION: int := 53
  /** The exponent of the smallest normal double; subnormals share its spacing. */
  const MIN_EXPONENT: int := -1022
  /** Every finite double lies below 2^1024. */
  const EXPONENT_LIMIT: int := 1024

  /** d * 2^k. */
  function Scale(d: real, k: int): real
    decreases if k < 0 then -k else k
  {
    if k == 0 then d else if k > 0 then 2.0 * Scale(d, k - 1) else Scale(d, k + 1) / 2.0
  }

  /** 2^e. */
  function Pow2(e: int): (r: real)
    ensures r > 0.0
  {
    ScalePositive(1.0, e);
    Scale(1.0, e)
  }

  /** n * 2^k for a natural k, as an integer. */
  function ScaleInt(n: int, k: nat): int
  {
    if k == 0 then n else 2 * ScaleInt(n, k - 1)
  }

  lemma ScaleStep(d: real, k: int)
    ensures Scale(d, k + 1) == 2.0 * Scale(d, k)
  {
  }

  lemma {:induction false} ScaleSub(d1: real, d2: real, k: int)
    ensures Scale(d1, k) - Scale(d2, k) == Scale(d1 - d2, k)
    decreases if k < 0 then -k else k
  {
    if k > 0 {
      ScaleSub(d1, d2, k - 1);
    } else if k < 0 {
      ScaleSub(d1, d2, k + 1);
    }
  }

  lemma {:induction false} ScalePositive(d: real, k: int)
    requires d > 0.0
    ensures Scale(d, k) > 0.0
    decreases if k < 0 then -k else k
  {
    if k > 0 {
      ScalePositive(d, k - 1);
    } else if k < 0 {
      ScalePositive(d, k + 1);
    }
  }

  /** Scaling keeps the order of values. */
  lemma ScaleMonotone(d1: real, d2: real, k: int)
    ensures d1 < d2 ==> Scale(d1, k) < Scale(d2, k)
    ensures d1 <= d2 ==> Scale(d1, k) <= Scale(d2, k)
  {
    ScaleSub(d2, d1, k);
    if d1 < d2 {
      ScalePositive(d2 - d1, k);
    }
  }

  lemma {:induction false} ScaleUp(d: real, a: int, b: nat)
    ensures Scale(Scale(d, a), b) == Scale(d, a + b)
  {
    if b > 0 {
      ScaleUp(d, a, b - 1);
      ScaleStep(d, a + b - 1);
    }
  }

  lemma {:induction false} ScaleDown(d: real, a: int, b: nat)
    ensures Scale(Scale(d, a), -(b as int)) == Scale(d, a - b)
  {
    if b > 0 {
      ScaleDown(d, a, b - 1);
      ScaleStep(d, a - b);
    }
  }

  /** Scaling by 2^a and then by 2^b is scaling by 2^(a+b). */
  lemma ScaleCompose(d: real, a: int, b: int)
    ensures Scale(Scale(d, a), b) == Scale(d, a + b)
  {
    if b >= 0 {
      ScaleUp(d, a, b);
    } else {
      ScaleDown(d, a, -b);
    }
  }

  lemma ScaleInverse(d: real, k: int)
    ensures Scale(Scale(d, -k), k) == d
  {
    ScaleCompose(d, -k, k);
  }

  lemma {:induction false} ScaleOfInteger(n: int, k: nat)
    ensures Scale(n as real, k) == ScaleInt(n, k) as real
  {
    if k > 0 {
      ScaleOfInteger(n, k - 1);
    }
  }

  lemma {:induction false} Pow2Increasing(a: int, b: int)
    requires a < b
    ensures Pow2(a) < Pow2(b)
    decreases b - a
  {
    ScaleStep(1.0, a);
    ScalePositive(1.0, a);
    if a + 1 < b {
      Pow2Increasing(a + 1, b);
    }
  }

  lemma Pow2Monotone(a: int, b: int)
    requires a <= b
    ensures Pow2(a) <= Pow2(b)
  {
    if a < b {
      Pow2Increasing(a, b);
    }
  }

  /** The binary exponent of a positive value: the e with
      2^e <= d < 2^(e+1), raised to MIN_EXPONENT for subnormal values and
      capped at EXPONENT_LIMIT for values no double reaches. */
  function Exponent(d: real): (e: int)
    requires d > 0.0
    ensures MIN_EXPONENT <= e <= EXPONENT_LIMIT
    ensures e > MIN_EXPONENT ==> Pow2(e) <= d
    ensures e < EXPONENT_LIMIT ==> d < Pow2(e + 1)
  {
    if d >= 1.0 then ExponentUp(d, 0) else ExponentDown(d, -1)
  }

  function ExponentUp(d: real, e: int): (r: int)
    requires 0 <= e <= EXPONENT_LIMIT && Pow2(e) <= d
    ensures e <= r <= EXPONENT_LIMIT && Pow2(r) <= d
    ensures r < EXPONENT_LIMIT ==> d < Pow2(r + 1)
    decreases EXPONENT_LIMIT - e
  {
    if e == EXPONENT_LIMIT || d < Pow2(e + 1) then e else ExponentUp(d, e + 1)
  }

  function ExponentDown(d: real, e: int): (r: int)
    requires MIN_EXPONENT <= e < 0 && d < Pow2(e + 1)
    ensures MIN_EXPONENT <= r <= e && d < Pow2(r + 1)
    ensures r > MIN_EXPONENT ==> Pow2(r) <= d
    decreases e - MIN_EXPONENT
  {
    if e == MIN_EXPONENT || Pow2(e) <= d then e else ExponentDown(d, e - 1)
  }

  /** Within the range of exponents, the exponent is the one whose binade
      holds the value. */
  lemma ExponentIs(d: real, k: int)
    requires MIN_EXPONENT <= k < EXPONENT_LIMIT && Pow2(k) <= d < Pow2(k + 1)
    ensures Exponent(d) == k
  {
    ScalePositive(1.0, k);
    var e := Exponent(d);
    if e < k {
      Pow2Monotone(e + 1, k);
    } else if e > k {
      Pow2Monotone(k + 1, e);
    }
  }

  /** The exponent of the last significand bit around a positive value:
      doubles there are the multiples of 2^UlpExponent(d). */
  function UlpExponent(d: real): int
    requires d > 0.0
  {
    Exponent(d) - (PRECISION - 1)
  }

  /** The integer nearest x, the even one on a tie. */
  function RoundHalfEven(x: real): (m: int)
    ensures m as real - x <= 0.5 && x - m as real <= 0.5
    ensures (m as real - x == 0.5 || x - m as real == 0.5) ==> m % 2 == 0
  {
    var f := x.Floor;
    var frac := x - f as real;
    if frac < 0.5 then f
    else if frac > 0.5 then f + 1
    else if f % 2 == 0 then f
    else f + 1
  }

  /** A value halfway below an even integer rounds up to it. */
  lemma RoundTieToEven(x: real, c: int)
    requires c % 2 == 0 && x >= c as real - 0.5
    ensures RoundHalfEven(x) >= c
  {
  }

  /** Rounding never crosses an integer bound. */
  lemma RoundKeepsBounds(x: real, c: int)
    ensures x >= c as real ==> RoundHalfEven(x) >= c
    ensures x <= c as real ==> RoundHalfEven(x) <= c
  {
  }

  /** The double nearest a positive value, or `None` for infinity. */
  function RoundPositive(d: real): (r: Option<real>)
    requires d > 0.0
    ensures r.Some? ==> r.value < Pow2(EXPONENT_LIMIT)
    ensures r.Some? ==> r.value - d <= Scale(0.5, UlpExponent(d)) && d - r.value <= Scale(0.5, UlpExponent(d))
    ensures r.Some? ==> var s := Scale(r.value, -UlpExponent(d)); s == s.Floor as real
    ensures r.Some? && (r.value - d == Scale(0.5, UlpExponent(d)) || d - r.value == Scale(0.5, UlpExponent(d))) ==>
              Scale(r.value, -UlpExponent(d)).Floor % 2 == 0
  {
    var k := UlpExponent(d);
    var v := Scale(RoundHalfEven(Scale(d, -k)) as real, k);
    RoundedOnGrid(d, k);
    if v >= Pow2(EXPONENT_LIMIT) then None else Some(v)
  }

  /** The rounded value on the grid of multiples of 2^k: within half a step
      of d, a multiple of the step, and an even one on a tie. */
  lemma RoundedOnGrid(d: real, k: int)
    ensures var v := Scale(RoundHalfEven(Scale(d, -k)) as real, k);
            v - d <= Scale(0.5, k) && d - v <= Scale(0.5, k)
    ensures var v := Scale(RoundHalfEven(Scale(d, -k)) as real, k);
            var s := Scale(v, -k); s == s.Floor as real
    ensures var v := Scale(RoundHalfEven(Scale(d, -k)) as real, k);
            (v - d == Scale(0.5, k) || d - v == Scale(0.5, k)) ==> Scale(v, -k).Floor % 2 == 0
  {
    var m := RoundHalfEven(Scale(d, -k));
    NearestOnGrid(d, k, m);
    assert Scale(Scale(m as real, k), -k).Floor == m;
  }

  /** Rounding x = d * 2^-k to the integer m puts m * 2^k within half of
      2^k of d, and m * 2^k scales back to m. */
  lemma NearestOnGrid(d: real, k: int, m: int)
    requires m as real - Scale(d, -k) <= 0.5 && Scale(d, -k) - m as real <= 0.5
    ensures Scale(m as real, k) - d <= Scale(0.5, k) && d - Scale(m as real, k) <= Scale(0.5, k)
    ensures Scale(Scale(m as real, k), -k) == m as real
    ensures Scale(m as real, k) - d == Scale(0.5, k) ==> m as real - Scale(d, -k) == 0.5
    ensures d - Scale(m as real, k) == Scale(0.5, k) ==> Scale(d, -k) - m as real == 0.5
  {
    var x := Scale(d, -k);
    ScaleInverse(d, k);
    ScaleSub(m as real, x, k);
    ScaleSub(x, m as real, k);
    ScaleMonotone(m as real - x, 0.5, k);
    ScaleMonotone(x - m as real, 0.5, k);
    ScaleCompose(m as real, k, -k);
  }

  /** `Double.valueOf` of a literal whose exact value is d: the double,
      or `None` when it is infinite. */
  function ToDouble(d: real): (r: Option<real>)
    ensures d == 0.0 ==> r == Some(0.0)
    ensures d > 0.0 ==> r == RoundPositive(d)
    ensures d < 0.0 ==> r == (if RoundPositive(-d).Some? then Some(-RoundPositive(-d).value) else None)
  {
    if d == 0.0 then Some(0.0)
    else if d > 0.0 then RoundPositive(d)
    else match RoundPositive(-d)
      case Some(v) => Some(-v)
      case None => None
  }

  /** A value on the grid of its binade, and below 2^1024, is a double. */
  lemma OnGridExact(d: real)
    requires 0.0 < d < Pow2(EXPONENT_LIMIT)
    requires var s := Scale(d, -UlpExponent(d)); s == s.Floor as real
    ensures RoundPositive(d) == Some(d)
  {
    ScaleInverse(d, UlpExponent(d));
  }

  lemma Pow2OfNat(n: nat)
    ensures Pow2(n) == ScaleInt(1, n) as real
  {
    ScaleOfInteger(1, n);
  }

  /** Every integer of magnitude at most 2^53 is a double. */
  lemma ExactIntegers(n: int)
    requires -ScaleInt(1, PRECISION) <= n <= ScaleInt(1, PRECISION)
    ensures ToDouble(n as real) == Some(n as real)
  {
    var d := n as real;
    if n > 0 {
      assert RoundPositive(d) == Some(d) by {
        PositiveIntegerExact(n);
      }
    } else if n < 0 {
      var a := -n;
      PositiveIntegerExact(a);
      NegativeMirrors(d, a as real);
    }
  }

  lemma NegativeMirrors(d: real, a: real)
    requires a == -d && a > 0.0 && RoundPositive(a) == Some(a)
    ensures ToDouble(d) == Some(d)
  {
  }

  lemma PositiveIntegerExact(a: int)
    requires 1 <= a <= ScaleInt(1, PRECISION)
    ensures RoundPositive(a as real) == Some(a as real)
  {
    var d := a as real;
    var e := Exponent(d);
    Pow2OfNat(PRECISION);
    if e < 0 {
      Pow2Monotone(e + 1, 0);
    }
    if e > PRECISION {
      Pow2Increasing(PRECISION, e);
    }
    Pow2Increasing(PRECISION, EXPONENT_LIMIT);
    var k := UlpExponent(d);
    if k <= 0 {
      ScaleOfInteger(a, -k);
    } else {
      assert k == 1 && d == Pow2(PRECISION);
      ScaleCompose(1.0, PRECISION, -1);
      Pow2OfNat(PRECISION - 1);
    }
    OnGridExact(d);
  }

  lemma PositiveBeyondRange(a: real)
    requires a >= Pow2(EXPONENT_LIMIT)
    ensures RoundPositive(a) == None
  {
    ScalePositive(1.0, EXPONENT_LIMIT);
    var e := Exponent(a);
    assert e == EXPONENT_LIMIT by {
      if e < EXPONENT_LIMIT {
        Pow2Monotone(e + 1, EXPONENT_LIMIT);
      }
    }
    var k := UlpExponent(a);
    var x := Scale(a, -k);
    assert x >= Pow2(PRECISION - 1) by {
      ScaleMonotone(Pow2(EXPONENT_LIMIT), a, -k);
      ScaleCompose(1.0, EXPONENT_LIMIT, -k);
    }
    var m := RoundHalfEven(x);
    assert m as real >= Pow2(PRECISION - 1) by {
      Pow2OfNat(PRECISION - 1);
      RoundKeepsBounds(x, ScaleInt(1, PRECISION - 1));
    }
    assert Scale(m as real, k) >= Pow2(EXPONENT_LIMIT) by {
      ScaleMonotone(Pow2(PRECISION - 1), m as real, k);
      ScaleCompose(1.0, PRECISION - 1, k);
    }
  }

  lemma PositiveWithinRange(a: real)
    requires 0.0 < a < Pow2(EXPONENT_LIMIT - 1)
    ensures RoundPositive(a).Some?
  {
    var e := Exponent(a);
    assert e < EXPONENT_LIMIT - 1 by {
      if e >= EXPONENT_LIMIT - 1 {
        Pow2Monotone(EXPONENT_LIMIT - 1, e);
      }
    }
    var k := UlpExponent(a);
    var x := Scale(a, -k);
    assert x < Pow2(PRECISION) by {
      ScaleMonotone(a, Pow2(e + 1), -k);
      ScaleCompose(1.0, e + 1, -k);
    }
    var m := RoundHalfEven(x);
    assert m as real <= Pow2(PRECISION) by {
      Pow2OfNat(PRECISION);
      RoundKeepsBounds(x, ScaleInt(1, PRECISION));
    }
    assert Scale(m as real, k) < Pow2(EXPONENT_LIMIT) by {
      ScaleMonotone(m as real, Pow2(PRECISION), k);
      ScaleCompose(1.0, PRECISION, k);
      Pow2Monotone(e + 1, EXPONENT_LIMIT - 1);
      Pow2Increasing(EXPONENT_LIMIT - 1, EXPONENT_LIMIT);
    }
  }

  /** The least value that rounds to infinity: the largest double,
      (2^53 - 1) * 2^971, plus half its step, 2^970. */
  function OverflowThreshold(): real
  {
    Pow2(EXPONENT_LIMIT) - Pow2(EXPONENT_LIMIT - PRECISION - 1)
  }

  /** A literal is infinite as a double exactly when its magnitude reaches
      the overflow threshold. */
  lemma InfiniteIff(d: real)
    ensures ToDouble(d).None? <==> d >= OverflowThreshold() || d <= -OverflowThreshold()
  {
    ThresholdBounds();
    if d > 0.0 {
      PositiveInfiniteIff(d);
    } else if d < 0.0 {
      var a := -d;
      PositiveInfiniteIff(a);
      NegativeMirrorsInfinity(d, a);
    }
  }

  lemma NegativeMirrorsInfinity(d: real, a: real)
    requires a == -d && a > 0.0
    ensures ToDouble(d).None? <==> RoundPositive(a).None?
  {
  }

  lemma ThresholdBounds()
    ensures Pow2(EXPONENT_LIMIT - 1) < OverflowThreshold() < Pow2(EXPONENT_LIMIT)
  {
    ScaleStep(1.0, EXPONENT_LIMIT - 1);
    Pow2Increasing(EXPONENT_LIMIT - PRECISION - 1, EXPONENT_LIMIT - 1);
  }

  lemma PositiveInfiniteIff(a: real)
    requires a > 0.0
    ensures RoundPositive(a).None? <==> a >= OverflowThreshold()
  {
    ThresholdBounds();
    if a >= Pow2(EXPONENT_LIMIT) {
      PositiveBeyondRange(a);
    } else if a < Pow2(EXPONENT_LIMIT - 1) {
      PositiveWithinRange(a);
    } else {
      TopBinade(a);
    }
  }

  /** In the top binade the significand is a * 2^-971, the threshold
      scales to 2^53 - 1/2, and a significand of 2^53 overflows. */
  lemma TopBinade(a: real)
    requires Pow2(EXPONENT_LIMIT - 1) <= a < Pow2(EXPONENT_LIMIT)
    ensures RoundPositive(a).None? <==> a >= OverflowThreshold()
  {
    if a >= OverflowThreshold() {
      TopBinadeOverflows(a);
    } else {
      TopBinadeFinite(a);
    }
  }

  /** The threshold scales to 2^53 - 1/2 in the top binade. */
  lemma ThresholdSignificand()
    ensures Scale(OverflowThreshold(), -(EXPONENT_LIMIT - PRECISION)) == Pow2(PRECISION) - 0.5
  {
    var k := EXPONENT_LIMIT - PRECISION;
    ScaleSub(Pow2(EXPONENT_LIMIT), Pow2(EXPONENT_LIMIT - PRECISION - 1), -k);
    ScaleCompose(1.0, EXPONENT_LIMIT, -k);
    ScaleCompose(1.0, EXPONENT_LIMIT - PRECISION - 1, -k);
    assert Pow2(-1) == 0.5;
  }

  lemma TopSignificandScales()
    ensures Scale(Pow2(PRECISION), EXPONENT_LIMIT - PRECISION) == Pow2(EXPONENT_LIMIT)
  {
    ScaleCompose(1.0, PRECISION, EXPONENT_LIMIT - PRECISION);
  }

  lemma TopSignificandEven()
    ensures Pow2(PRECISION) == ScaleInt(1, PRECISION) as real && ScaleInt(1, PRECISION) % 2 == 0
  {
    Pow2OfNat(PRECISION);
  }

  lemma TopBinadeOverflows(a: real)
    requires Pow2(EXPONENT_LIMIT - 1) <= a < Pow2(EXPONENT_LIMIT) && a >= OverflowThreshold()
    ensures RoundPositive(a).None?
  {
    ExponentIs(a, EXPONENT_LIMIT - 1);
    var k := EXPONENT_LIMIT - PRECISION;
    var x := Scale(a, -k);
    assert x >= Pow2(PRECISION) - 0.5 by {
      ThresholdSignificand();
      ScaleMonotone(OverflowThreshold(), a, -k);
    }
    var m := RoundHalfEven(x);
    assert m as real >= Pow2(PRECISION) by {
      TopSignificandEven();
      RoundTieToEven(x, ScaleInt(1, PRECISION));
    }
    assert Scale(m as real, k) >= Pow2(EXPONENT_LIMIT) by {
      TopSignificandScales();
      ScaleMonotone(Pow2(PRECISION), m as real, k);
    }
  }

  lemma TopBinadeFinite(a: real)
    requires Pow2(EXPONENT_LIMIT - 1) <= a < OverflowThreshold()
    ensures RoundPositive(a).Some?
  {
    ThresholdBounds();
    ExponentIs(a, EXPONENT_LIMIT - 1);
    var k := EXPONENT_LIMIT - PRECISION;
    assert UlpExponent(a) == k;
    var x := Scale(a, -k);
    TopSignificandBelow(a);
    var m := RoundHalfEven(x);
    TopRoundedBelow(x);
    TopRoundedFits(m);
  }

  /** Below the threshold, the top-binade significand is below 2^53 - 1/2. */
  lemma TopSignificandBelow(a: real)
    requires a < OverflowThreshold()
    ensures Scale(a, -(EXPONENT_LIMIT - PRECISION)) < Pow2(PRECISION) - 0.5
  {
    ThresholdSignificand();
    ScaleMonotone(a, OverflowThreshold(), -(EXPONENT_LIMIT - PRECISION));
  }

  /** A significand below 2^53 - 1/2 rounds to at most 2^53 - 1. */
  lemma TopRoundedBelow(x: real)
    requires x < Pow2(PRECISION) - 0.5
    ensures RoundHalfEven(x) as real <= Pow2(PRECISION) - 1.0
  {
    TopSignificandEven();
    RoundKeepsBounds(x, ScaleInt(1, PRECISION) - 1);
  }

  /** A top-binade significand of at most 2^53 - 1 stays below 2^1024. */
  lemma TopRoundedFits(m: int)
    requires m as real <= Pow2(PRECISION) - 1.0
    ensures Scale(m as real, EXPONENT_LIMIT - PRECISION) < Pow2(EXPONENT_LIMIT)
  {
    var k := EXPONENT_LIMIT - PRECISION;
    TopSignificandScales();
    ScaleMonotone(m as real, Pow2(PRECISION) - 1.0, k);
    ScaleSub(Pow2(PRECISION), 1.0, k);
    ScalePositive(1.0, k);
  }


  lemma ScaleEight(d: real)
    ensures Scale(d, 8) == 256.0 * d
  {
  }

  /** Scaling eight more steps multiplies by 256. */
  lemma ScalePlusEight(d: real, k: int)
    ensures Scale(d, k + 8) == 256.0 * Scale(d, k)
  {
    ScaleCompose(d, k, 8);
    ScaleEight(Scale(d, k));
  }

  /** 2^53, the bound below which every integer is a double. */
  lemma PrecisionPower()
    ensures ScaleInt(1, PRECISION) == 0x20_0000_0000_0000
  {
    assert Pow2(5) == 32.0;
    ScalePlusEight(1.0, 5);
    ScalePlusEight(1.0, 13);
    ScalePlusEight(1.0, 21);
    ScalePlusEight(1.0, 29);
    ScalePlusEight(1.0, 37);
    ScalePlusEight(1.0, 45);
    Pow2OfNat(PRECISION);
  }

  /** Past 2^53 not every integer is a double: 123456789012345678 becomes
      123456789012345680, the nearest multiple of 16. */
  lemma LargeIntegerRounds()
    ensures ToDouble(123456789012345678.0) == Some(123456789012345680.0)
  {
    var d := 123456789012345678.0;
    assert Pow2(8) == 256.0;
    ScalePlusEight(1.0, 8);
    ScalePlusEight(1.0, 16);
    ScalePlusEight(1.0, 24);
    ScalePlusEight(1.0, 32);
    ScalePlusEight(1.0, 40);
    ScalePlusEight(1.0, 48);
    ScaleStep(1.0, 56);
    assert Pow2(56) == 72057594037927936.0;
    assert Pow2(57) == 144115188075855872.0;
    ExponentIs(d, 56);
    assert Scale(d, -4) == 7716049313271604.875;
    assert RoundHalfEven(7716049313271604.875) == 7716049313271605;
    assert Scale(7716049313271605.0, 4) == 123456789012345680.0;
    Pow2Increasing(57, EXPONENT_LIMIT);
  }

  /** A fraction within half a step of 1 is read as 1. */
  lemma NearOneRoundsUp()
    ensures ToDouble(0.99999999999999999) == Some(1.0)
  {
    var d := 0.99999999999999999;
    assert Pow2(-1) == 0.5 && Pow2(0) == 1.0;
    ExponentIs(d, -1);
    assert UlpExponent(d) == -PRECISION;
    ScalePlusEight(d, 5);
    ScalePlusEight(d, 13);
    ScalePlusEight(d, 21);
    ScalePlusEight(d, 29);
    ScalePlusEight(d, 37);
    ScalePlusEight(d, 45);
    var x := Scale(d, PRECISION);
    assert x == 9007199254740991.90992800745259008;
    assert RoundHalfEven(x) == 9007199254740992;
    var m := 9007199254740992.0;
    ScalePlusEight(m, -53);
    ScalePlusEight(m, -45);
    ScalePlusEight(m, -37);
    ScalePlusEight(m, -29);
    ScalePlusEight(m, -21);
    ScalePlusEight(m, -13);
    assert Scale(m, -5) == 281474976710656.0;
    assert Scale(m, -PRECISION) == 1.0;
    Pow2Increasing(0, EXPONENT_LIMIT);
  }
}
