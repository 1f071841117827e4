/** The integer approximation of the exponential that prices gas (crates/arb-math/src/lib.rs). */
module ExpApprox {
  import opened Machine

  const ONE_IN_BIPS: nat := 10_000

  /** One Horner step. */
  function HornerStep(bips: U64, i: nat, res: U64): (r: U64)
    requires 0 < i && i * ONE_IN_BIPS <= U64_MAX
    ensures r >= ONE_IN_BIPS
  {
    SatAdd64(ONE_IN_BIPS, Quotient(SatMul64(res, bips), i * ONE_IN_BIPS))
  }

  function Quotient(x: U64, d: nat): U64
    requires d > 0
  {
    assert x / d <= x;
    x / d
  }

  function Horner(bips: U64, i: nat, res: U64): U64
    requires i * ONE_IN_BIPS <= U64_MAX
  {
    if i == 0 then res else Horner(bips, i - 1, HornerStep(bips, i, res))
  }

  function Start(bips: U64, accuracy: nat): U64
    requires 0 < accuracy
  {
    SatAdd64(ONE_IN_BIPS, Quotient(bips, accuracy))
  }

  function Approx(bips: U64, accuracy: nat): U64
    requires accuracy * ONE_IN_BIPS <= U64_MAX
  {
    if bips == 0 || accuracy == 0 then ONE_IN_BIPS else Horner(bips, accuracy - 1, Start(bips, accuracy))
  }

  method ApproxExpBasisPoints(bips: U64, accuracy: nat) returns (res: U64)
    requires accuracy * ONE_IN_BIPS <= U64_MAX
    ensures res == Approx(bips, accuracy)
    ensures res as real <= 10000.0 * Taylor(bips as real / 10000.0, accuracy)
    ensures Representable(bips, accuracy) ==> res as real >= 9999.0 * Taylor(bips as real / 10000.0, accuracy)
    ensures bips * ONE_IN_BIPS <= U64_MAX && accuracy > 0 ==> res >= ONE_IN_BIPS + bips
  {
    hide Taylor, Quotient, SatMul64, Representable;
    NeverAboveTaylor(bips, accuracy);
    if Representable(bips, accuracy) {
      WithinOneBip(bips, accuracy);
    }
    if bips * ONE_IN_BIPS <= U64_MAX && accuracy > 0 {
      AboveLinear(bips, accuracy);
    }
    if bips == 0 || accuracy == 0 {
      return ONE_IN_BIPS;
    }
    res := SatAdd64(ONE_IN_BIPS, Quotient(bips, accuracy));
    var i := accuracy - 1;
    while i > 0
      invariant 0 <= i < accuracy
      invariant Horner(bips, i, res) == Approx(bips, accuracy)
    {
      res := SatAdd64(ONE_IN_BIPS, Quotient(SatMul64(res, bips), i * ONE_IN_BIPS));
      i := i - 1;
    }
  }

  // ----- monotone in the input -----

  lemma MultipleOutside(k: int, d: nat)
    ensures k >= 1 ==> k * d >= d
    ensures k <= -1 ==> k * d + d <= 0
  {
  }

  lemma DivMonotone(x: nat, y: nat, d: nat)
    requires x <= y && d > 0
    ensures x / d <= y / d
  {
    var gap := x / d - y / d;
    assert gap * d == (x - x % d) - (y - y % d);
    MultipleOutside(gap, d);
  }

  lemma StepMonotone(bips: U64, more: U64, i: nat, res: U64, higher: U64)
    requires 0 < i && i * ONE_IN_BIPS <= U64_MAX
    requires bips <= more && res <= higher
    ensures HornerStep(bips, i, res) <= HornerStep(more, i, higher)
  {
    ProductMonotone(res, higher, bips, more);
    DivMonotone(SatMul64(res, bips), SatMul64(higher, more), i * ONE_IN_BIPS);
  }

  lemma {:induction false} HornerMonotone(bips: U64, more: U64, i: nat, res: U64, higher: U64)
    requires i * ONE_IN_BIPS <= U64_MAX
    requires bips <= more && res <= higher
    ensures Horner(bips, i, res) <= Horner(more, i, higher)
    decreases i
  {
    if i > 0 {
      StepMonotone(bips, more, i, res, higher);
      HornerMonotone(bips, more, i - 1, HornerStep(bips, i, res), HornerStep(more, i, higher));
    }
  }

  lemma {:induction false} HornerAtLeastOne(bips: U64, i: nat, res: U64)
    requires i * ONE_IN_BIPS <= U64_MAX && res >= ONE_IN_BIPS
    ensures Horner(bips, i, res) >= ONE_IN_BIPS
    decreases i
  {
    if i > 0 {
      HornerAtLeastOne(bips, i - 1, HornerStep(bips, i, res));
    }
  }

  /** A larger input never gives a smaller result, saturated or not. */
  lemma MonotoneInInput(bips: U64, more: U64, accuracy: nat)
    requires accuracy * ONE_IN_BIPS <= U64_MAX && bips <= more
    ensures Approx(bips, accuracy) <= Approx(more, accuracy)
  {
    if bips == 0 || accuracy == 0 {
      if more != 0 && accuracy != 0 {
        HornerAtLeastOne(more, accuracy - 1, Start(more, accuracy));
      }
    } else {
      DivMonotone(bips, more, accuracy);
      HornerMonotone(bips, more, accuracy - 1, Start(bips, accuracy), Start(more, accuracy));
    }
  }

  // ----- monotone in the accuracy -----

  lemma MulAssociative(x: int, y: int, z: int)
    ensures (x * y) * z == x * (y * z)
  {
  }

  lemma ScaledDiv(x: nat, n: nat, s: nat)
    requires n > 0 && s > 0
    ensures n * s > 0 && (x * s) / (n * s) == x / n
  {
    var q, r := x / n, x % n;
    ProductDistributes(q * n, r, s);
    MulAssociative(q, n, s);
    ProductMonotone(r + 1, n, s, s);
    ProductDistributes(r, 1, s);
    DivUnique(x * s, n * s, q, r * s);
  }

  lemma DivUnique(x: nat, d: nat, q: nat, r: nat)
    requires d > 0 && r < d && x == q * d + r
    ensures x / d == q
  {
    var gap := q - x / d;
    assert gap * d == x % d - r;
    MultipleOutside(gap, d);
  }

  lemma OneMoreTerm(bips: U64, accuracy: nat)
    requires (accuracy + 1) * ONE_IN_BIPS <= U64_MAX && bips * ONE_IN_BIPS <= U64_MAX
    ensures Approx(bips, accuracy) <= Approx(bips, accuracy + 1)
  {
    if bips == 0 {
    } else if accuracy == 0 {
      HornerAtLeastOne(bips, 0, Start(bips, 1));
    } else {
      var inner := Start(bips, accuracy + 1);
      assert inner * bips >= ONE_IN_BIPS * bips by {
        ProductMonotone(ONE_IN_BIPS, inner, bips, bips);
      }
      assert SatMul64(inner, bips) >= bips * ONE_IN_BIPS;
      DivMonotone(bips * ONE_IN_BIPS, SatMul64(inner, bips), accuracy * ONE_IN_BIPS);
      ScaledDiv(bips, accuracy, ONE_IN_BIPS);
      assert Start(bips, accuracy) <= HornerStep(bips, accuracy, inner);
      HornerMonotone(bips, bips, accuracy - 1, Start(bips, accuracy), HornerStep(bips, accuracy, inner));
    }
  }

  /** Up to u64::MAX / 10,000 a higher accuracy never gives a smaller result. */
  lemma {:induction false} MonotoneInAccuracy(bips: U64, accuracy: nat, higher: nat)
    requires accuracy <= higher && higher * ONE_IN_BIPS <= U64_MAX && bips * ONE_IN_BIPS <= U64_MAX
    ensures Approx(bips, accuracy) <= Approx(bips, higher)
    decreases higher
  {
    if accuracy < higher {
      MonotoneInAccuracy(bips, accuracy, higher - 1);
      OneMoreTerm(bips, higher - 1);
    }
  }

  /** ... and it is at least the linear approximation. */
  lemma AboveLinear(bips: U64, accuracy: nat)
    requires 0 < accuracy && accuracy * ONE_IN_BIPS <= U64_MAX && bips * ONE_IN_BIPS <= U64_MAX
    ensures Approx(bips, accuracy) >= ONE_IN_BIPS + bips
  {
    MonotoneInAccuracy(bips, 1, accuracy);
  }

  // ----- never above the exact value -----

  /** x^k / k! */
  ghost function Term(x: real, k: nat): real {
    if k == 0 then 1.0 else Term(x, k - 1) * (x / k as real)
  }

  /** The terms below `n` of the exponential series. */
  ghost function TermsBelow(x: real, n: nat): real {
    if n == 0 then 0.0 else TermsBelow(x, n - 1) + Term(x, n - 1)
  }

  /** The exponential series up to the term of degree `n`. */
  ghost function Taylor(x: real, n: nat): real {
    TermsBelow(x, n + 1)
  }

  lemma {:induction false} TermPositive(x: real, k: nat)
    requires x >= 0.0
    ensures Term(x, k) >= 0.0
  {
    if k > 0 {
      TermPositive(x, k - 1);
      assert x / k as real >= 0.0;
    }
  }

  lemma {:induction false} TaylorAtLeastOne(x: real, n: nat)
    requires x >= 0.0
    ensures Taylor(x, n) >= 1.0
  {
    TermPositive(x, n);
    if n == 0 {
      assert TermsBelow(x, 0) == 0.0;
    } else {
      TaylorAtLeastOne(x, n - 1);
    }
  }

  lemma ProductBelow(a: real, b: real, c: real)
    requires a <= b && c >= 0.0
    ensures a * c <= b * c
  {
  }

  /** Rounding and saturation only ever lower the quotient of a step. */
  lemma QuotientBelow(bips: U64, i: nat, res: U64, v: real)
    requires 0 < i && i * ONE_IN_BIPS <= U64_MAX
    requires res as real <= 10000.0 * v
    ensures var x := bips as real / 10000.0;
      Quotient(SatMul64(res, bips), i * ONE_IN_BIPS) as real <= 10000.0 * (v * (x / i as real))
  {
    var x, q, d, n := bips as real / 10000.0, SatMul64(res, bips) / (i * ONE_IN_BIPS), i * ONE_IN_BIPS, i as real;
    assert q * d <= SatMul64(res, bips) <= res * bips;
    assert (q * d) as real == q as real * d as real && d as real == n * 10000.0;
    assert (res * bips) as real == res as real * bips as real;
    ProductBelow(res as real, 10000.0 * v, bips as real);
    assert bips as real == 10000.0 * x;
    assert q as real * (n * 10000.0) <= (10000.0 * v) * (10000.0 * x);
    Cancel(q as real, n, v, x);
  }

  lemma Cancel(q: real, n: real, v: real, x: real)
    requires n > 0.0
    requires q * (n * 10000.0) <= (10000.0 * v) * (10000.0 * x)
    ensures q <= 10000.0 * (v * (x / n))
  {
    var y := x / n;
    assert x == y * n;
    assert (10000.0 * v) * (10000.0 * x) == (10000.0 * (v * y)) * (n * 10000.0);
    if q > 10000.0 * (v * y) {
      StrictProduct(10000.0 * (v * y), q, n * 10000.0);
    }
  }

  lemma StrictProduct(a: real, b: real, c: real)
    requires a < b && c > 0.0
    ensures a * c < b * c
  {
  }

  /** The rest of the loop stays below the rest of the series. */
  lemma {:induction false} HornerBelowSeries(bips: U64, i: nat, res: U64, v: real)
    requires i * ONE_IN_BIPS <= U64_MAX
    requires res as real <= 10000.0 * v
    ensures var x := bips as real / 10000.0;
      Horner(bips, i, res) as real <= 10000.0 * (TermsBelow(x, i) + Term(x, i) * v)
    decreases i
  {
    hide Term, TermsBelow, HornerStep;
    var x := bips as real / 10000.0;
    if i > 0 {
      StepBelow(bips, i, res, v);
      HornerBelowSeries(bips, i - 1, HornerStep(bips, i, res), 1.0 + v * (x / i as real));
      SeriesStep(x, i, v);
    } else {
      SeriesEnd(x, v);
    }
  }

  lemma StepBelow(bips: U64, i: nat, res: U64, v: real)
    requires 0 < i && i * ONE_IN_BIPS <= U64_MAX
    requires res as real <= 10000.0 * v
    ensures HornerStep(bips, i, res) as real <= 10000.0 * (1.0 + v * (bips as real / 10000.0 / i as real))
  {
    hide Quotient, SatMul64;
    QuotientBelow(bips, i, res, v);
  }

  lemma SeriesEnd(x: real, v: real)
    ensures TermsBelow(x, 0) + Term(x, 0) * v == v
  {
  }

  lemma SeriesStep(x: real, i: nat, v: real)
    requires i > 0
    ensures TermsBelow(x, i - 1) + Term(x, i - 1) * (1.0 + v * (x / i as real)) == TermsBelow(x, i) + Term(x, i) * v
  {
    var t, y := Term(x, i - 1), x / i as real;
    assert t * (1.0 + v * y) == t + (t * y) * v;
  }

  /** The result never exceeds the exponential series cut off at the accuracy. */
  lemma NeverAboveTaylor(bips: U64, accuracy: nat)
    requires accuracy * ONE_IN_BIPS <= U64_MAX
    ensures Approx(bips, accuracy) as real <= 10000.0 * Taylor(bips as real / 10000.0, accuracy)
  {
    hide Taylor, Horner, Start;
    if bips == 0 || accuracy == 0 {
      TaylorAtLeastOne(bips as real / 10000.0, accuracy);
    } else {
      LoopBelowTaylor(bips, accuracy);
    }
  }

  lemma LoopBelowTaylor(bips: U64, accuracy: nat)
    requires 0 < accuracy && accuracy * ONE_IN_BIPS <= U64_MAX
    ensures Horner(bips, accuracy - 1, Start(bips, accuracy)) as real
         <= 10000.0 * Taylor(bips as real / 10000.0, accuracy)
  {
    hide Term, TermsBelow, Taylor, Start, Horner;
    var x := bips as real / 10000.0;
    var v := 1.0 + 1.0 * (x / accuracy as real);
    StartBelow(bips, accuracy, v);
    HornerBelowSeries(bips, accuracy - 1, Start(bips, accuracy), v);
    SeriesStep(x, accuracy, 1.0);
    TaylorLast(x, accuracy);
  }

  lemma TaylorLast(x: real, n: nat)
    ensures Taylor(x, n) == TermsBelow(x, n) + Term(x, n) * 1.0
  {
  }

  // ----- and within one part in ten thousand of it -----

  /** Ten thousand times the series, times the input, fits a word: no step can saturate. */
  ghost predicate Representable(bips: U64, accuracy: nat) {
    10000.0 * Taylor(bips as real / 10000.0, accuracy) * bips as real <= U64_MAX as real
  }

  lemma DivAntitone(x: nat, d: nat, e: nat)
    requires 0 < d <= e
    ensures x / e <= x / d
  {
    ProductMonotone(d, e, x / e, x / e);
    assert x / e * d <= x;
    DivMonotone(x / e * d, x, d);
    DivUnique(x / e * d, d, x / e, 0);
  }

  /** The loop never goes down, once it has gone up. */
  lemma {:induction false} HornerRises(bips: U64, i: nat, res: U64)
    requires i * ONE_IN_BIPS <= U64_MAX
    requires i > 0 ==> res <= HornerStep(bips, i, res)
    ensures res <= Horner(bips, i, res)
    decreases i
  {
    if i > 0 {
      var next := HornerStep(bips, i, res);
      if i > 1 {
        StepRises(bips, i, res);
      }
      HornerRises(bips, i - 1, next);
    }
  }

  lemma StepRises(bips: U64, i: nat, res: U64)
    requires 1 < i && i * ONE_IN_BIPS <= U64_MAX && res <= HornerStep(bips, i, res)
    ensures HornerStep(bips, i, res) <= HornerStep(bips, i - 1, HornerStep(bips, i, res))
  {
    StepMonotone(bips, bips, i, res, HornerStep(bips, i, res));
    DivAntitone(SatMul64(HornerStep(bips, i, res), bips), (i - 1) * ONE_IN_BIPS, i * ONE_IN_BIPS);
  }

  /** A quotient that is not saturated loses less than one to rounding. */
  lemma QuotientAbove(bips: U64, i: nat, res: U64, w: real)
    requires 0 < i && i * ONE_IN_BIPS <= U64_MAX && res * bips <= U64_MAX
    requires res as real >= 10000.0 * w
    ensures var x := bips as real / 10000.0;
      Quotient(SatMul64(res, bips), i * ONE_IN_BIPS) as real + 1.0 >= 10000.0 * (w * (x / i as real))
  {
    var x, q, d, n := bips as real / 10000.0, res * bips / (i * ONE_IN_BIPS), i * ONE_IN_BIPS, i as real;
    assert res * bips <= (q + 1) * d;
    assert ((q + 1) * d) as real == (q as real + 1.0) * d as real && d as real == n * 10000.0;
    assert (res * bips) as real == res as real * bips as real;
    ProductBelow(10000.0 * w, res as real, bips as real);
    assert bips as real == 10000.0 * x;
    CancelAbove(q as real + 1.0, n, w, x);
  }

  lemma CancelAbove(q: real, n: real, w: real, x: real)
    requires n > 0.0
    requires (10000.0 * w) * (10000.0 * x) <= q * (n * 10000.0)
    ensures 10000.0 * (w * (x / n)) <= q
  {
    var y := x / n;
    assert x == y * n;
    assert (10000.0 * w) * (10000.0 * x) == (10000.0 * (w * y)) * (n * 10000.0);
    if q < 10000.0 * (w * y) {
      StrictProduct(q, 10000.0 * (w * y), n * 10000.0);
    }
  }

  lemma StepAbove(bips: U64, i: nat, res: U64, w: real)
    requires 0 < i && i * ONE_IN_BIPS <= U64_MAX && res * bips <= U64_MAX
    requires res as real >= 10000.0 * w
    ensures HornerStep(bips, i, res) as real >= 10000.0 * (0.9999 + w * (bips as real / 10000.0 / i as real))
  {
    QuotientAbove(bips, i, res, w);
    QuotientFits(res * bips, i * ONE_IN_BIPS);
    hide Quotient;
  }

  lemma QuotientFits(x: U64, d: nat)
    requires d >= ONE_IN_BIPS
    ensures ONE_IN_BIPS + Quotient(x, d) <= U64_MAX
  {
    DivAntitone(x, ONE_IN_BIPS, d);
  }

  lemma LowerSeriesStep(x: real, i: nat, w: real)
    requires i > 0
    ensures 0.9999 * TermsBelow(x, i - 1) + Term(x, i - 1) * (0.9999 + w * (x / i as real))
         == 0.9999 * TermsBelow(x, i) + Term(x, i) * w
  {
    var t, y := Term(x, i - 1), x / i as real;
    assert t * (0.9999 + w * y) == 0.9999 * t + (t * y) * w;
  }

  /** The rest of the loop loses at most one basis point of the rest of the series. */
  lemma {:induction false} HornerAboveSeries(bips: U64, i: nat, res: U64, w: real)
    requires i * ONE_IN_BIPS <= U64_MAX
    requires i > 0 ==> res <= HornerStep(bips, i, res)
    requires Horner(bips, i, res) * bips <= U64_MAX
    requires res as real >= 10000.0 * w
    ensures var x := bips as real / 10000.0;
      Horner(bips, i, res) as real >= 10000.0 * (0.9999 * TermsBelow(x, i) + Term(x, i) * w)
    decreases i
  {
    hide Term, TermsBelow, HornerStep;
    var x := bips as real / 10000.0;
    if i > 0 {
      HornerRises(bips, i, res);
      ProductMonotone(res, Horner(bips, i, res), bips, bips);
      StepAbove(bips, i, res, w);
      if i > 1 {
        StepRises(bips, i, res);
      }
      HornerAboveSeries(bips, i - 1, HornerStep(bips, i, res), 0.9999 + w * (x / i as real));
      LowerSeriesStep(x, i, w);
    } else {
      LowerSeriesEnd(x, w);
    }
  }

  lemma LowerSeriesEnd(x: real, w: real)
    ensures 0.9999 * TermsBelow(x, 0) + Term(x, 0) * w == w
  {
  }

  lemma StartAbove(bips: U64, accuracy: nat)
    requires 0 < accuracy && accuracy * ONE_IN_BIPS <= U64_MAX && bips * ONE_IN_BIPS <= U64_MAX
    ensures Start(bips, accuracy) as real >= 10000.0 * (0.9999 + 1.0 * (bips as real / 10000.0 / accuracy as real))
    ensures accuracy > 1 ==> Start(bips, accuracy) <= HornerStep(bips, accuracy - 1, Start(bips, accuracy))
  {
    var q, n := bips / accuracy, accuracy as real;
    assert bips <= (q + 1) * accuracy;
    assert ((q + 1) * accuracy) as real == (q as real + 1.0) * n;
    assert (10000.0 * 1.0) * (10000.0 * (bips as real / 10000.0)) <= (q as real + 1.0) * (n * 10000.0);
    CancelAbove(q as real + 1.0, n, 1.0, bips as real / 10000.0);
    DivAntitone(bips, 1, accuracy);
    if accuracy > 1 {
      StartRises(bips, accuracy);
    }
  }

  lemma StartRises(bips: U64, accuracy: nat)
    requires 1 < accuracy && accuracy * ONE_IN_BIPS <= U64_MAX && bips * ONE_IN_BIPS <= U64_MAX
    ensures Start(bips, accuracy) <= HornerStep(bips, accuracy - 1, Start(bips, accuracy))
  {
    var start, d := Start(bips, accuracy), (accuracy - 1) * ONE_IN_BIPS;
    ProductMonotone(ONE_IN_BIPS, start, bips, bips);
    assert SatMul64(start, bips) >= bips * ONE_IN_BIPS;
    DivMonotone(bips * ONE_IN_BIPS, SatMul64(start, bips), d);
    ScaledDiv(bips, accuracy - 1, ONE_IN_BIPS);
    DivAntitone(bips, accuracy - 1, accuracy);
  }

  lemma {:induction false} TaylorOfZero(n: nat)
    ensures Taylor(0.0, n) == 1.0
  {
    if n > 0 {
      TaylorOfZero(n - 1);
      assert Term(0.0, n) == Term(0.0, n - 1) * 0.0;
    } else {
      assert TermsBelow(0.0, 0) == 0.0;
    }
  }

  /** Where nothing saturates the result is within one part in ten thousand of the series cut off at the accuracy. */
  lemma WithinOneBip(bips: U64, accuracy: nat)
    requires accuracy * ONE_IN_BIPS <= U64_MAX && Representable(bips, accuracy)
    ensures Approx(bips, accuracy) as real >= 9999.0 * Taylor(bips as real / 10000.0, accuracy)
  {
    hide Taylor, Horner, Start, HornerStep, Term, TermsBelow;
    var x := bips as real / 10000.0;
    if bips == 0 {
      TaylorOfZero(accuracy);
    } else if accuracy == 0 {
      TaylorLast(x, 0);
      SeriesEnd(x, 1.0);
    } else {
      LoopFits(bips, accuracy);
      StartAbove(bips, accuracy);
      HornerAboveSeries(bips, accuracy - 1, Start(bips, accuracy), 0.9999 + 1.0 * (x / accuracy as real));
      LowerSeriesStep(x, accuracy, 1.0);
      TaylorLast(x, accuracy);
      TermPositive(x, accuracy);
    }
  }

  lemma LoopFits(bips: U64, accuracy: nat)
    requires 0 < bips && 0 < accuracy && accuracy * ONE_IN_BIPS <= U64_MAX && Representable(bips, accuracy)
    ensures Horner(bips, accuracy - 1, Start(bips, accuracy)) * bips <= U64_MAX
    ensures bips * ONE_IN_BIPS <= U64_MAX
  {
    hide Taylor, Horner, Start;
    var x, res := bips as real / 10000.0, Horner(bips, accuracy - 1, Start(bips, accuracy));
    LoopBelowTaylor(bips, accuracy);
    TaylorAtLeastOne(x, accuracy);
    ProductBelow(res as real, 10000.0 * Taylor(x, accuracy), bips as real);
    ProductBelow(10000.0, 10000.0 * Taylor(x, accuracy), bips as real);
    assert (res * bips) as real == res as real * bips as real;
    assert (bips * ONE_IN_BIPS) as real == 10000.0 * bips as real;
  }

  lemma StartBelow(bips: U64, accuracy: nat, v: real)
    requires 0 < accuracy && accuracy * ONE_IN_BIPS <= U64_MAX
    requires v == 1.0 + 1.0 * (bips as real / 10000.0 / accuracy as real)
    ensures Start(bips, accuracy) as real <= 10000.0 * v
  {
    var q, n := bips / accuracy, accuracy as real;
    assert q * accuracy <= bips;
    assert (q * accuracy) as real == q as real * n;
    assert q as real * (n * 10000.0) <= (10000.0 * 1.0) * (10000.0 * (bips as real / 10000.0));
    Cancel(q as real, n, 1.0, bips as real / 10000.0);
  }
}
