/**
 * The weighted constant-value pool formulas of lib/math.ts: spot price,
 * amount out for a given amount in, and amount in for a given amount out.
 *
 * Values are exact reals. Dafny has no real-valued power, so the power
 * x^e that the formulas raise to the weight ratio is a parameter `pow`,
 * and every property that needs it assumes only the laws of real
 * exponentiation collected in `PowLaws` (and, for the general round trip,
 * `PowInverseLaws`).
 */
module AmmMath {

  /** The laws of x^e used here: 1^e = 1, x^1 = x, x^e stays in (0, 1] for
      x in (0, 1] and e > 0, and x^e is strictly increasing in x for e > 0. */
  ghost predicate PowLaws(pow: (real, real) -> real) {
    && (forall e :: pow(1.0, e) == 1.0)
    && (forall x :: pow(x, 1.0) == x)
    && (forall x, e :: 0.0 < x <= 1.0 && 0.0 < e ==> 0.0 < pow(x, e) <= 1.0)
    && (forall x, y, e :: 0.0 < x < y && 0.0 < e ==> pow(x, e) < pow(y, e))
  }

  /** Two further laws of real exponentiation, for positive bases and
      non-zero exponents: (x^e)^(1/e) = x and (1/x)^e = 1/x^e. */
  ghost predicate PowInverseLaws(pow: (real, real) -> real) {
    && (forall x, e :: 0.0 < x && e != 0.0 ==> pow(pow(x, e), 1.0 / e) == x)
    && (forall x, e :: 0.0 < x ==> pow(1.0 / x, e) * pow(x, e) == 1.0)
  }

  /** calcSpotPrice: (balanceIn / weightIn) / (balanceOut / weightOut) * 1 / (1 - swapFee).
      The result is the unique price that, net of the fee, equates the
      weighted in-balance with the weighted out-balance. */
  function SpotPrice(balanceIn: real, weightIn: real, balanceOut: real, weightOut: real, swapFee: real): (price: real)
    requires weightIn != 0.0 && balanceOut != 0.0 && weightOut != 0.0 && swapFee != 1.0
    ensures price * (1.0 - swapFee) * (balanceOut / weightOut) == balanceIn / weightIn
  {
    var numer := balanceIn / weightIn;
    var denom := balanceOut / weightOut;
    var ratio := numer / denom;
    var scale := 1.0 / (1.0 - swapFee);
    ratio * scale
  }

  /** With no fee the spot price is the ratio of the weighted balances. */
  lemma SpotPriceNoFee(balanceIn: real, weightIn: real, balanceOut: real, weightOut: real)
    requires weightIn != 0.0 && balanceOut != 0.0 && weightOut != 0.0
    ensures SpotPrice(balanceIn, weightIn, balanceOut, weightOut, 0.0) * (balanceOut / weightOut) == balanceIn / weightIn
  {
    var price := SpotPrice(balanceIn, weightIn, balanceOut, weightOut, 0.0);
    assert price * (1.0 - 0.0) == price;
  }

  /** A live pool quotes a positive price. */
  lemma SpotPricePositive(balanceIn: real, weightIn: real, balanceOut: real, weightOut: real, swapFee: real)
    requires Quotable(balanceIn, weightIn, balanceOut, weightOut, swapFee)
    ensures SpotPrice(balanceIn, weightIn, balanceOut, weightOut, swapFee) > 0.0
  {
    var numer := balanceIn / weightIn;
    var denom := balanceOut / weightOut;
    PositiveQuotient(balanceIn, weightIn);
    PositiveQuotient(balanceOut, weightOut);
    PositiveQuotient(numer, denom);
    PositiveQuotient(1.0, 1.0 - swapFee);
    MulPositive(numer / denom, 1.0 / (1.0 - swapFee));
  }

  /** More in-balance or less out-balance raises the price: the price is
      monotone in both, strictly when either changes. */
  lemma SpotPriceMonotone(balanceIn: real, balanceIn': real, weightIn: real,
                          balanceOut: real, balanceOut': real, weightOut: real, swapFee: real)
    requires Quotable(balanceIn, weightIn, balanceOut, weightOut, swapFee)
    requires balanceIn <= balanceIn' && 0.0 < balanceOut' <= balanceOut
    ensures SpotPrice(balanceIn, weightIn, balanceOut, weightOut, swapFee)
         <= SpotPrice(balanceIn', weightIn, balanceOut', weightOut, swapFee)
    ensures balanceIn < balanceIn' || balanceOut' < balanceOut ==>
      SpotPrice(balanceIn, weightIn, balanceOut, weightOut, swapFee)
      < SpotPrice(balanceIn', weightIn, balanceOut', weightOut, swapFee)
  {
    var n, n' := balanceIn / weightIn, balanceIn' / weightIn;
    var d, d' := balanceOut / weightOut, balanceOut' / weightOut;
    NumeratorMonotone(balanceIn, balanceIn', weightIn);
    NumeratorMonotone(balanceOut', balanceOut, weightOut);
    PositiveQuotient(balanceIn, weightIn);
    PositiveQuotient(balanceOut', weightOut);
    RatioMonotone(n, n', d, d');
    PositiveQuotient(1.0, 1.0 - swapFee);
    ScaleMonotone(n / d, n' / d', 1.0 / (1.0 - swapFee));
    SpotPriceUnfold(balanceIn, weightIn, balanceOut, weightOut, swapFee);
    SpotPriceUnfold(balanceIn', weightIn, balanceOut', weightOut, swapFee);
  }

  lemma SpotPriceUnfold(balanceIn: real, weightIn: real, balanceOut: real, weightOut: real, swapFee: real)
    requires weightIn != 0.0 && balanceOut != 0.0 && weightOut != 0.0 && swapFee != 1.0
    ensures SpotPrice(balanceIn, weightIn, balanceOut, weightOut, swapFee)
         == (balanceIn / weightIn) / (balanceOut / weightOut) * (1.0 / (1.0 - swapFee))
  {
  }

  /** n / d grows with n and shrinks with d. */
  lemma RatioMonotone(n: real, n': real, d: real, d': real)
    requires 0.0 < n <= n' && 0.0 < d' <= d
    ensures n / d <= n' / d'
    ensures n < n' || d' < d ==> n / d < n' / d'
  {
    if d' < d {
      DivStrict(n, d', d);
    }
    NumeratorMonotone(n, n', d');
  }

  lemma ScaleMonotone(a: real, b: real, c: real)
    requires a <= b && 0.0 < c
    ensures a * c <= b * c
    ensures a < b ==> a * c < b * c
  {
    if a < b {
      MulStrict(a, b, c);
    }
  }

  lemma NumeratorMonotone(a: real, b: real, d: real)
    requires a <= b && 0.0 < d
    ensures a / d <= b / d
    ensures a < b ==> a / d < b / d
  {
    if a < b {
      PositiveQuotient(b - a, d);
      assert b / d - a / d == (b - a) / d;
    }
  }

  /** calcOutGivenIn: balanceOut * (1 - y^(weightIn / weightOut)) where
      y = balanceIn / (balanceIn + amountIn * (1 - swapFee)). */
  function OutGivenIn(pow: (real, real) -> real, balanceIn: real, weightIn: real, balanceOut: real,
                      weightOut: real, amountIn: real, swapFee: real): (amountOut: real)
    requires weightOut != 0.0 && balanceIn + amountIn * (1.0 - swapFee) != 0.0
    ensures PowLaws(pow) && amountIn == 0.0 ==> amountOut == 0.0
  {
    var weightRatio := weightIn / weightOut;
    var adjustedIn := amountIn * (1.0 - swapFee);
    var y := balanceIn / (balanceIn + adjustedIn);
    assert amountIn == 0.0 ==> adjustedIn == 0.0;
    UnitBase(balanceIn, balanceIn + adjustedIn);
    balanceOut * (1.0 - pow(y, weightRatio))
  }

  /** calcInGivenOut: balanceIn * (y^(weightOut / weightIn) - 1) / (1 - swapFee)
      where y = balanceOut / (balanceOut - amountOut). An amountOut equal to
      balanceOut zeroes the divisor. */
  function InGivenOut(pow: (real, real) -> real, balanceIn: real, weightIn: real, balanceOut: real,
                      weightOut: real, amountOut: real, swapFee: real): (amountIn: real)
    requires weightIn != 0.0 && balanceOut - amountOut != 0.0 && swapFee != 1.0
    ensures PowLaws(pow) && amountOut == 0.0 ==> amountIn == 0.0
  {
    var weightRatio := weightOut / weightIn;
    var diff := balanceOut - amountOut;
    var y := balanceOut / diff;
    var foo := pow(y, weightRatio) - 1.0;
    UnitBase(balanceOut, diff);
    ZeroNumerator(balanceIn, foo, 1.0 - swapFee);
    balanceIn * foo / (1.0 - swapFee)
  }

  /** A non-zero value over itself is 1. */
  lemma UnitBase(b: real, s: real)
    ensures s == b && b != 0.0 ==> b / s == 1.0
  {
  }

  /** A zero factor in the numerator gives a zero quotient. */
  lemma ZeroNumerator(a: real, b: real, c: real)
    ensures b == 0.0 && c != 0.0 ==> a * b / c == 0.0
  {
  }

  /** The conditions of a live pool quote: positive balances and weights and
      a fee below one. */
  predicate Quotable(balanceIn: real, weightIn: real, balanceOut: real, weightOut: real, swapFee: real) {
    0.0 < balanceIn && 0.0 < weightIn && 0.0 < balanceOut && 0.0 < weightOut && swapFee < 1.0
  }

  // ---------------------------------------------------------------------
  // Spot price

  /** Scaling both balances by the same positive factor leaves the price unchanged. */
  lemma SpotPriceScaleBalances(balanceIn: real, weightIn: real, balanceOut: real, weightOut: real,
                               swapFee: real, k: real)
    requires weightIn != 0.0 && balanceOut != 0.0 && weightOut != 0.0 && swapFee != 1.0 && k > 0.0
    ensures SpotPrice(k * balanceIn, weightIn, k * balanceOut, weightOut, swapFee)
         == SpotPrice(balanceIn, weightIn, balanceOut, weightOut, swapFee)
  {
    var p := SpotPrice(balanceIn, weightIn, balanceOut, weightOut, swapFee);
    var bo := balanceOut / weightOut;
    var bi := balanceIn / weightIn;
    assert p * (1.0 - swapFee) * bo == bi;
    assert k * balanceOut / weightOut == k * bo;
    assert k * balanceIn / weightIn == k * bi;
    assert p * (1.0 - swapFee) * (k * bo) == k * (p * (1.0 - swapFee) * bo);
    SpotPriceUnique(k * balanceIn, weightIn, k * balanceOut, weightOut, swapFee, p);
  }

  /** The spot price is the only value satisfying its defining equation. */
  lemma SpotPriceUnique(balanceIn: real, weightIn: real, balanceOut: real, weightOut: real,
                        swapFee: real, x: real)
    requires weightIn != 0.0 && balanceOut != 0.0 && weightOut != 0.0 && swapFee != 1.0
    requires x * (1.0 - swapFee) * (balanceOut / weightOut) == balanceIn / weightIn
    ensures x == SpotPrice(balanceIn, weightIn, balanceOut, weightOut, swapFee)
  {
    var p := SpotPrice(balanceIn, weightIn, balanceOut, weightOut, swapFee);
    var c := (1.0 - swapFee) * (balanceOut / weightOut);
    MulNonZero(1.0 - swapFee, balanceOut / weightOut);
    assert x * c == p * c;
    Cancel(c, x, p);
  }

  /** A product of non-zero factors is non-zero. */
  lemma MulNonZero(a: real, b: real)
    requires a != 0.0 && b != 0.0
    ensures a * b != 0.0
  {
  }

  /** Scaling both weights by the same positive factor leaves the price unchanged. */
  lemma SpotPriceScaleWeights(balanceIn: real, weightIn: real, balanceOut: real, weightOut: real,
                              swapFee: real, k: real)
    requires weightIn != 0.0 && balanceOut != 0.0 && weightOut != 0.0 && swapFee != 1.0 && k > 0.0
    ensures SpotPrice(balanceIn, k * weightIn, balanceOut, k * weightOut, swapFee)
         == SpotPrice(balanceIn, weightIn, balanceOut, weightOut, swapFee)
  {
    var p := SpotPrice(balanceIn, weightIn, balanceOut, weightOut, swapFee);
    var bo := balanceOut / weightOut;
    DivScale(balanceOut, weightOut, k);
    DivScale(balanceIn, weightIn, k);
    assert p * (1.0 - swapFee) * (bo / k) == (p * (1.0 - swapFee) * bo) / k;
    SpotPriceUnique(balanceIn, k * weightIn, balanceOut, k * weightOut, swapFee, p);
  }

  /** Dividing by a scaled weight divides the quotient by the scale. */
  lemma DivScale(a: real, w: real, k: real)
    requires w != 0.0 && k > 0.0
    ensures k * w != 0.0 && a / (k * w) == (a / w) / k
  {
    var x := a / w;
    assert x * w == a;
    assert ((x / k) * (k * w)) == x * w;
  }

  /** Without a fee the price of a in b and the price of b in a are reciprocal. */
  lemma SpotPriceReciprocal(balanceA: real, weightA: real, balanceB: real, weightB: real)
    requires balanceA != 0.0 && weightA != 0.0 && balanceB != 0.0 && weightB != 0.0
    ensures SpotPrice(balanceA, weightA, balanceB, weightB, 0.0)
          * SpotPrice(balanceB, weightB, balanceA, weightA, 0.0) == 1.0
  {
    var p := SpotPrice(balanceA, weightA, balanceB, weightB, 0.0);
    var q := SpotPrice(balanceB, weightB, balanceA, weightA, 0.0);
    var a := balanceA / weightA;
    var b := balanceB / weightB;
    assert a != 0.0 && b != 0.0;
    assert p * b == a;
    assert q * a == b;
    assert (p * q) * (a * b) == (p * b) * (q * a);
  }

  /** A fee strictly between zero and one puts the price strictly above the
      plain weighted balance ratio (when that ratio is positive). */
  lemma SpotPriceFeeAboveRatio(balanceIn: real, weightIn: real, balanceOut: real, weightOut: real, swapFee: real)
    requires weightIn != 0.0 && balanceOut != 0.0 && weightOut != 0.0
    requires 0.0 < swapFee < 1.0
    requires (balanceIn / weightIn) / (balanceOut / weightOut) > 0.0
    ensures SpotPrice(balanceIn, weightIn, balanceOut, weightOut, swapFee)
          > (balanceIn / weightIn) / (balanceOut / weightOut)
  {
    var ratio := (balanceIn / weightIn) / (balanceOut / weightOut);
    var p := SpotPrice(balanceIn, weightIn, balanceOut, weightOut, swapFee);
    var d := balanceOut / weightOut;
    assert p * (1.0 - swapFee) * d == ratio * d;
    assert p * (1.0 - swapFee) == ratio;
    assert p > ratio by {
      assert p * (1.0 - swapFee) < p * 1.0 || p <= 0.0;
    }
  }

  // ---------------------------------------------------------------------
  // Amount out given amount in

  /** The base y = balanceIn / (balanceIn + adjustedIn) of a live quote lies in (0, 1]. */
  lemma OutBaseInUnit(balanceIn: real, amountIn: real, swapFee: real)
    requires 0.0 < balanceIn && 0.0 <= amountIn && swapFee < 1.0
    ensures balanceIn + amountIn * (1.0 - swapFee) >= balanceIn
    ensures 0.0 < balanceIn / (balanceIn + amountIn * (1.0 - swapFee)) <= 1.0
  {
    var s := balanceIn + amountIn * (1.0 - swapFee);
    assert amountIn * (1.0 - swapFee) >= 0.0;
    assert balanceIn / s <= 1.0 by {
      assert balanceIn / s * s == balanceIn;
    }
  }

  /** A live quote never drains the pool: 0 <= amountOut < balanceOut. */
  lemma OutGivenInBounds(pow: (real, real) -> real, balanceIn: real, weightIn: real, balanceOut: real,
                         weightOut: real, amountIn: real, swapFee: real)
    requires PowLaws(pow)
    requires Quotable(balanceIn, weightIn, balanceOut, weightOut, swapFee) && 0.0 <= amountIn
    ensures balanceIn + amountIn * (1.0 - swapFee) > 0.0
    ensures 0.0 <= OutGivenIn(pow, balanceIn, weightIn, balanceOut, weightOut, amountIn, swapFee) < balanceOut
  {
    OutBaseInUnit(balanceIn, amountIn, swapFee);
    var y := balanceIn / (balanceIn + amountIn * (1.0 - swapFee));
    var r := weightIn / weightOut;
    assert 0.0 < pow(y, r) <= 1.0;
    assert balanceOut * (1.0 - pow(y, r)) < balanceOut * 1.0;
  }

  /** Selling more buys strictly more (fee below one, positive balances and weights). */
  lemma OutGivenInStrictlyIncreasing(pow: (real, real) -> real, balanceIn: real, weightIn: real,
                                     balanceOut: real, weightOut: real, a1: real, a2: real, swapFee: real)
    requires PowLaws(pow)
    requires Quotable(balanceIn, weightIn, balanceOut, weightOut, swapFee) && 0.0 <= a1 < a2
    ensures balanceIn + a1 * (1.0 - swapFee) > 0.0 && balanceIn + a2 * (1.0 - swapFee) > 0.0
    ensures OutGivenIn(pow, balanceIn, weightIn, balanceOut, weightOut, a1, swapFee)
          < OutGivenIn(pow, balanceIn, weightIn, balanceOut, weightOut, a2, swapFee)
  {
    OutBaseInUnit(balanceIn, a1, swapFee);
    OutBaseInUnit(balanceIn, a2, swapFee);
    var s1 := balanceIn + a1 * (1.0 - swapFee);
    var s2 := balanceIn + a2 * (1.0 - swapFee);
    MulStrict(a1, a2, 1.0 - swapFee);
    var y1 := balanceIn / s1;
    var y2 := balanceIn / s2;
    DivStrict(balanceIn, s1, s2);
    var r := weightIn / weightOut;
    assert pow(y2, r) < pow(y1, r);
    ScaleStrict(1.0 - pow(y1, r), 1.0 - pow(y2, r), balanceOut);
    OutGivenInUnfold(pow, balanceIn, weightIn, balanceOut, weightOut, a1, swapFee);
    OutGivenInUnfold(pow, balanceIn, weightIn, balanceOut, weightOut, a2, swapFee);
  }

  /** a < b and c > 0 give c * a < c * b. */
  lemma ScaleStrict(a: real, b: real, c: real)
    requires a < b && 0.0 < c
    ensures c * a < c * b
  {
    MulStrict(a, b, c);
  }

  /** a < b and c > 0 give a * c < b * c. */
  lemma MulStrict(a: real, b: real, c: real)
    requires a < b && 0.0 < c
    ensures a * c < b * c
  {
    assert b * c - a * c == (b - a) * c;
  }

  /** A positive numerator over a larger positive denominator is smaller. */
  lemma DivStrict(n: real, d1: real, d2: real)
    requires 0.0 < n && 0.0 < d1 < d2
    ensures 0.0 < n / d2 < n / d1
  {
    var q1 := n / d1;
    var q2 := n / d2;
    assert q1 * d1 == n && q2 * d2 == n;
    assert 0.0 < q2;
  }

  // ---------------------------------------------------------------------
  // Amount in given amount out

  /** Within the pool's out-balance a quote never asks for a negative amount in. */
  lemma InGivenOutNonNegative(pow: (real, real) -> real, balanceIn: real, weightIn: real, balanceOut: real,
                              weightOut: real, amountOut: real, swapFee: real)
    requires PowLaws(pow)
    requires Quotable(balanceIn, weightIn, balanceOut, weightOut, swapFee) && 0.0 <= amountOut < balanceOut
    ensures InGivenOut(pow, balanceIn, weightIn, balanceOut, weightOut, amountOut, swapFee) >= 0.0
  {
    var d := balanceOut - amountOut;
    var y := balanceOut / d;
    if d < balanceOut {
      DivStrict(balanceOut, d, balanceOut);
    }
    assert balanceOut / balanceOut == 1.0;
    assert y >= 1.0;
    var r := weightOut / weightIn;
    PositiveQuotient(weightOut, weightIn);
    assert pow(y, r) >= 1.0 by {
      if y > 1.0 {
        assert pow(1.0, r) < pow(y, r);
      }
    }
    var foo := pow(y, r) - 1.0;
    MulNonNegative(balanceIn, foo);
    PositiveQuotientOfNonNegative(balanceIn * foo, 1.0 - swapFee);
    InGivenOutUnfold(pow, balanceIn, weightIn, balanceOut, weightOut, amountOut, swapFee);
  }

  /** With equal weights the two quotes are exact inverses:
      InGivenOut(OutGivenIn(a)) == a. */
  lemma RoundTripEqualWeights(pow: (real, real) -> real, balanceIn: real, balanceOut: real, weight: real,
                              amountIn: real, swapFee: real)
    requires PowLaws(pow)
    requires Quotable(balanceIn, weight, balanceOut, weight, swapFee) && 0.0 <= amountIn
    ensures balanceIn + amountIn * (1.0 - swapFee) > 0.0
    ensures balanceOut - OutGivenIn(pow, balanceIn, weight, balanceOut, weight, amountIn, swapFee) != 0.0
    ensures InGivenOut(pow, balanceIn, weight, balanceOut, weight,
                       OutGivenIn(pow, balanceIn, weight, balanceOut, weight, amountIn, swapFee), swapFee)
         == amountIn
  {
    OutGivenInBounds(pow, balanceIn, weight, balanceOut, weight, amountIn, swapFee);
    var adj := amountIn * (1.0 - swapFee);
    var y := balanceIn / (balanceIn + adj);
    var out := OutGivenIn(pow, balanceIn, weight, balanceOut, weight, amountIn, swapFee);
    OutGivenInEqualWeights(pow, balanceIn, weight, balanceOut, amountIn, swapFee);
    assert out == balanceOut * (1.0 - y);
    var y' := InverseBase(balanceIn, balanceOut, adj, y);
    assert y' == balanceOut / (balanceOut - out);
    InGivenOutEqualWeights(pow, balanceIn, weight, balanceOut, out, swapFee);
    ScaledExcess(balanceIn, balanceOut / (balanceOut - out), y', 1.0 - swapFee);
    SameQuotient(balanceIn * (y' - 1.0), adj, 1.0 - swapFee);
    Unfee(amountIn, swapFee);
  }

  /** With equal weights the out-quote needs no exponentiation. */
  lemma OutGivenInEqualWeights(pow: (real, real) -> real, balanceIn: real, weight: real, balanceOut: real,
                               amountIn: real, swapFee: real)
    requires PowLaws(pow)
    requires weight != 0.0 && balanceIn + amountIn * (1.0 - swapFee) != 0.0
    ensures OutGivenIn(pow, balanceIn, weight, balanceOut, weight, amountIn, swapFee)
         == balanceOut * (1.0 - balanceIn / (balanceIn + amountIn * (1.0 - swapFee)))
  {
    assert weight / weight == 1.0;
  }

  /** With equal weights the in-quote needs no exponentiation. */
  lemma InGivenOutEqualWeights(pow: (real, real) -> real, balanceIn: real, weight: real, balanceOut: real,
                               amountOut: real, swapFee: real)
    requires PowLaws(pow)
    requires weight != 0.0 && balanceOut - amountOut != 0.0 && swapFee != 1.0
    ensures InGivenOut(pow, balanceIn, weight, balanceOut, weight, amountOut, swapFee)
         == balanceIn * (balanceOut / (balanceOut - amountOut) - 1.0) / (1.0 - swapFee)
  {
    assert weight / weight == 1.0;
    var y := balanceOut / (balanceOut - amountOut);
    assert pow(y, 1.0) == y;
    assert pow(y, weight / weight) == y;
    InGivenOutUnfold(pow, balanceIn, weight, balanceOut, weight, amountOut, swapFee);
    ScaledExcess(balanceIn, pow(y, weight / weight), y, 1.0 - swapFee);
  }

  /** Substituting equals in a numerator. */
  lemma SameQuotient(a: real, b: real, c: real)
    requires a == b && c != 0.0
    ensures a / c == b / c
  {
  }

  /** Substituting equals inside balanceIn * (p - 1) / c. */
  lemma ScaledExcess(balanceIn: real, p: real, y: real, c: real)
    requires p == y && c != 0.0
    ensures balanceIn * (p - 1.0) / c == balanceIn * (y - 1.0) / c
  {
  }

  /** InGivenOut with its intermediate values substituted. */
  lemma InGivenOutUnfold(pow: (real, real) -> real, balanceIn: real, weightIn: real, balanceOut: real,
                         weightOut: real, amountOut: real, swapFee: real)
    requires weightIn != 0.0 && balanceOut - amountOut != 0.0 && swapFee != 1.0
    ensures InGivenOut(pow, balanceIn, weightIn, balanceOut, weightOut, amountOut, swapFee)
         == balanceIn * (pow(balanceOut / (balanceOut - amountOut), weightOut / weightIn) - 1.0) / (1.0 - swapFee)
  {
  }

  /** The algebra of the equal-weight round trip: the out-quote's base
      y = bIn / (bIn + adj) leaves bOut * y in the pool, and the in-quote's
      base bOut / (bOut * y) recovers adj. */
  lemma InverseBase(balanceIn: real, balanceOut: real, adj: real, y: real) returns (y': real)
    requires 0.0 < balanceIn && 0.0 < balanceOut && 0.0 <= adj
    requires y == balanceIn / (balanceIn + adj)
    ensures balanceOut - balanceOut * (1.0 - y) == balanceOut * y > 0.0
    ensures y' == balanceOut / (balanceOut - balanceOut * (1.0 - y))
    ensures balanceIn * (y' - 1.0) == adj
  {
    var s := balanceIn + adj;
    assert y * s == balanceIn;
    PositiveQuotient(balanceIn, s);
    MulPositive(balanceOut, y);
    var d := balanceOut * y;
    assert balanceOut - balanceOut * (1.0 - y) == d;
    y' := balanceOut / d;
    assert y' * d == balanceOut;
    assert y' * y == 1.0 by {
      assert y' * (balanceOut * y) == balanceOut * (y' * y);
      Cancel(balanceOut, y' * y, 1.0);
    }
    assert y' * balanceIn == s by {
      assert y' * (y * s) == (y' * y) * s;
    }
  }

  /** Removing the fee from an amount and dividing it back in restores the amount. */
  lemma Unfee(amount: real, swapFee: real)
    requires swapFee != 1.0
    ensures amount * (1.0 - swapFee) / (1.0 - swapFee) == amount
  {
    var k := 1.0 - swapFee;
    var q := amount * k / k;
    assert q * k == amount * k;
    Cancel(k, q, amount);
  }

  /** A non-zero factor cancels. */
  lemma Cancel(a: real, x: real, y: real)
    requires a != 0.0 && (a * x == a * y || x * a == y * a)
    ensures x == y
  {
    assert a * (x - y) == 0.0;
  }

  /** 0 < a and 0 < b give 0 < a * b. */
  lemma MulPositive(a: real, b: real)
    requires 0.0 < a && 0.0 < b
    ensures 0.0 < a * b
  {
  }

  /** 0 < a and 0 < b give 0 < a / b. */
  lemma PositiveQuotient(a: real, b: real)
    requires 0.0 < a && 0.0 < b
    ensures 0.0 < a / b
  {
  }

  /** 0 <= a and 0 < b give 0 <= a / b. */
  lemma PositiveQuotientOfNonNegative(a: real, b: real)
    requires 0.0 <= a && 0.0 < b
    ensures 0.0 <= a / b
  {
  }

  /** 0 <= a and 0 <= b give 0 <= a * b. */
  lemma MulNonNegative(a: real, b: real)
    requires 0.0 <= a && 0.0 <= b
    ensures 0.0 <= a * b
  {
  }

  /** The round trip for arbitrary positive weights, given the inverse laws of
      exponentiation: InGivenOut(OutGivenIn(a)) == a. */
  lemma RoundTrip(pow: (real, real) -> real, balanceIn: real, weightIn: real, balanceOut: real,
                  weightOut: real, amountIn: real, swapFee: real)
    requires PowLaws(pow) && PowInverseLaws(pow)
    requires Quotable(balanceIn, weightIn, balanceOut, weightOut, swapFee) && 0.0 <= amountIn
    ensures balanceIn + amountIn * (1.0 - swapFee) > 0.0
    ensures balanceOut - OutGivenIn(pow, balanceIn, weightIn, balanceOut, weightOut, amountIn, swapFee) != 0.0
    ensures InGivenOut(pow, balanceIn, weightIn, balanceOut, weightOut,
                       OutGivenIn(pow, balanceIn, weightIn, balanceOut, weightOut, amountIn, swapFee), swapFee)
         == amountIn
  {
    OutBaseInUnit(balanceIn, amountIn, swapFee);
    var adj := amountIn * (1.0 - swapFee);
    var y := balanceIn / (balanceIn + adj);
    var r := weightIn / weightOut;
    PositiveQuotient(weightIn, weightOut);
    var p := pow(y, r);
    assert 0.0 < p <= 1.0;
    OutGivenInUnfold(pow, balanceIn, weightIn, balanceOut, weightOut, amountIn, swapFee);
    var out := OutGivenIn(pow, balanceIn, weightIn, balanceOut, weightOut, amountIn, swapFee);
    assert out == balanceOut * (1.0 - p);
    var y' := ReciprocalBase(balanceOut, p);
    var r' := weightOut / weightIn;
    InverseRatio(weightIn, weightOut);
    var q := pow(y', r');
    PowReciprocal(pow, y, r);
    assert q * y == 1.0;
    var s := RecoverBase(balanceIn, adj, y, q);
    InGivenOutUnfold(pow, balanceIn, weightIn, balanceOut, weightOut, out, swapFee);
    assert pow(balanceOut / (balanceOut - out), r') == q;
    ScaledExcess(balanceIn, pow(balanceOut / (balanceOut - out), r'), q, 1.0 - swapFee);
    FeeBack(balanceIn * (q - 1.0), adj, amountIn, swapFee);
  }

  /** A quotient whose numerator equals the fee-reduced amount gives the
      amount back. */
  lemma FeeBack(x: real, adj: real, amount: real, swapFee: real)
    requires swapFee != 1.0 && x == adj && adj == amount * (1.0 - swapFee)
    ensures x / (1.0 - swapFee) == amount
  {
    Unfee(amount, swapFee);
  }

  /** Raising y^r to 1 / r and taking the reciprocal base undoes y^r:
      (1 / y^r)^(1 / r) * y == 1. */
  lemma PowReciprocal(pow: (real, real) -> real, y: real, r: real)
    requires PowInverseLaws(pow) && 0.0 < y && r != 0.0 && 0.0 < pow(y, r)
    ensures pow(1.0 / pow(y, r), 1.0 / r) * y == 1.0
  {
    var p := pow(y, r);
    assert pow(p, 1.0 / r) == y;
    assert pow(1.0 / p, 1.0 / r) * pow(p, 1.0 / r) == 1.0;
  }

  /** OutGivenIn with its intermediate values substituted. */
  lemma OutGivenInUnfold(pow: (real, real) -> real, balanceIn: real, weightIn: real, balanceOut: real,
                         weightOut: real, amountIn: real, swapFee: real)
    requires weightOut != 0.0 && balanceIn + amountIn * (1.0 - swapFee) != 0.0
    ensures OutGivenIn(pow, balanceIn, weightIn, balanceOut, weightOut, amountIn, swapFee)
         == balanceOut * (1.0 - pow(balanceIn / (balanceIn + amountIn * (1.0 - swapFee)), weightIn / weightOut))
  {
  }

  /** What the out-quote leaves in the pool, bOut * p, is the in-quote's base 1 / p. */
  lemma ReciprocalBase(balanceOut: real, p: real) returns (y': real)
    requires 0.0 < balanceOut && 0.0 < p
    ensures balanceOut - balanceOut * (1.0 - p) == balanceOut * p > 0.0
    ensures y' == balanceOut / (balanceOut - balanceOut * (1.0 - p)) == 1.0 / p
  {
    MulPositive(balanceOut, p);
    var d := balanceOut * p;
    assert balanceOut - balanceOut * (1.0 - p) == d;
    y' := balanceOut / d;
    assert y' * d == balanceOut;
    assert y' * p == 1.0 by {
      assert y' * (balanceOut * p) == balanceOut * (y' * p);
      Cancel(balanceOut, y' * p, 1.0);
    }
    assert (1.0 / p) * p == 1.0;
    Cancel(p, y', 1.0 / p);
  }

  /** The in-quote's weight ratio is the reciprocal of the out-quote's. */
  lemma InverseRatio(weightIn: real, weightOut: real)
    requires 0.0 < weightIn && 0.0 < weightOut
    ensures weightIn / weightOut != 0.0
    ensures weightOut / weightIn == 1.0 / (weightIn / weightOut)
  {
    PositiveQuotient(weightIn, weightOut);
    var r := weightIn / weightOut;
    assert r * weightOut == weightIn;
    var r' := weightOut / weightIn;
    assert r' * weightIn == weightOut;
    assert r' * r == 1.0 by {
      assert r' * r * weightOut == r' * weightIn;
      Cancel(weightOut, r' * r, 1.0);
    }
    assert (1.0 / r) * r == 1.0;
    Cancel(r, r', 1.0 / r);
  }

  /** A q with q * y == 1 for y = balanceIn / (balanceIn + adj) gives back adj. */
  lemma RecoverBase(balanceIn: real, adj: real, y: real, q: real) returns (s: real)
    requires 0.0 < balanceIn && 0.0 <= adj
    requires y == balanceIn / (balanceIn + adj) && q * y == 1.0
    ensures s == balanceIn + adj && balanceIn * (q - 1.0) == adj
  {
    s := balanceIn + adj;
    assert y * s == balanceIn;
    assert q * balanceIn == s by {
      assert q * (y * s) == (q * y) * s;
    }
  }

  /** The worked example: 10 base tokens into a 100/100 pool with equal
      weights and no fee buy 100 * (1 - 100/110) = 100/11 tokens. */
  lemma OutGivenInExample(pow: (real, real) -> real)
    requires PowLaws(pow)
    ensures OutGivenIn(pow, 100.0, 1.0, 100.0, 1.0, 10.0, 0.0) == 100.0 * (1.0 - 100.0 / 110.0)
    ensures OutGivenIn(pow, 100.0, 1.0, 100.0, 1.0, 10.0, 0.0) == 100.0 / 11.0
  {
    assert pow(100.0 / 110.0, 1.0) == 100.0 / 110.0;
  }
}
