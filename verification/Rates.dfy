/**
 Conversion of a nominal annual rate between compounding and payment cadence
 (src/common/utils/interest-rate.util.ts). Rates are percentages, as stored.
 */
module Rates {
  import opened RealMath

  /** Growth over one compounding period. */
  function PeriodGrowth(nominalPercent: real, periods: nat): real
    requires 1 <= periods
  {
    1.0 + nominalPercent / 100.0 / periods as real
  }

  /** Growth over one year: one plus the effective annual rate. */
  function AnnualGrowth(nominalPercent: real, periods: nat): real
    requires 1 <= periods
  {
    Pow(PeriodGrowth(nominalPercent, periods), periods)
  }

  /** `root` is what Math.pow(x, 1 / n) returns, in exact arithmetic. */
  ghost predicate IsRoot(root: real, x: real, n: nat) {
    0.0 < root && Pow(root, n) == x
  }

  /** The root that the conversion takes; none is taken when the two cadences agree. */
  ghost predicate IsConversionRoot(root: real, nominalPercent: real, compounding: nat, payment: nat)
    requires 1 <= compounding && 1 <= payment
  {
    compounding == payment || IsRoot(root, AnnualGrowth(nominalPercent, compounding), payment)
  }

  function ToEquivalentNominalRate(nominalPercent: real, compounding: nat, payment: nat, root: real): real {
    if compounding == payment then nominalPercent
    else (root - 1.0) * payment as real * 100.0
  }

  lemma ConvertedPeriodGrowth(nominalPercent: real, compounding: nat, payment: nat, root: real)
    requires 1 <= compounding && 1 <= payment
    ensures var out := ToEquivalentNominalRate(nominalPercent, compounding, payment, root);
            PeriodGrowth(out, payment) == if compounding == payment then PeriodGrowth(nominalPercent, payment) else root
  {
    if compounding != payment {
      var p := payment as real;
      assert (root - 1.0) * p * 100.0 / 100.0 == (root - 1.0) * p;
      MulDiv(root - 1.0, p);
    }
  }

  /** The converted rate yields the same effective annual rate. */
  lemma EffectiveRateIsKept(nominalPercent: real, compounding: nat, payment: nat, root: real)
    requires 1 <= compounding && 1 <= payment
    requires IsConversionRoot(root, nominalPercent, compounding, payment)
    ensures var out := ToEquivalentNominalRate(nominalPercent, compounding, payment, root);
            AnnualGrowth(out, payment) == AnnualGrowth(nominalPercent, compounding)
  {
    ConvertedPeriodGrowth(nominalPercent, compounding, payment, root);
  }

  /** A rate is determined by its annual growth and its cadence. */
  lemma SameGrowthSameRate(a: real, b: real, periods: nat)
    requires 1 <= periods
    requires 0.0 < PeriodGrowth(a, periods) && 0.0 < PeriodGrowth(b, periods)
    requires AnnualGrowth(a, periods) == AnnualGrowth(b, periods)
    ensures a == b
  {
    RootIsUnique(PeriodGrowth(a, periods), PeriodGrowth(b, periods), periods);
    var n := periods as real;
    assert a / 100.0 / n == b / 100.0 / n;
    assert a / 100.0 == a / 100.0 / n * n == b / 100.0 / n * n == b / 100.0;
  }

  /** Converting c -> p -> q equals converting c -> q directly. */
  lemma ConversionsCompose(rate: real, c: nat, p: nat, q: nat, rootCP: real, rootPQ: real, rootCQ: real)
    requires 1 <= c && 1 <= p && 1 <= q
    requires 0.0 < PeriodGrowth(rate, c)
    requires IsConversionRoot(rootCP, rate, c, p)
    requires IsConversionRoot(rootPQ, ToEquivalentNominalRate(rate, c, p, rootCP), p, q)
    requires IsConversionRoot(rootCQ, rate, c, q)
    ensures ToEquivalentNominalRate(ToEquivalentNominalRate(rate, c, p, rootCP), p, q, rootPQ)
         == ToEquivalentNominalRate(rate, c, q, rootCQ)
  {
    var mid := ToEquivalentNominalRate(rate, c, p, rootCP);
    var out := ToEquivalentNominalRate(mid, p, q, rootPQ);
    var direct := ToEquivalentNominalRate(rate, c, q, rootCQ);
    EffectiveRateIsKept(rate, c, p, rootCP);
    EffectiveRateIsKept(mid, p, q, rootPQ);
    EffectiveRateIsKept(rate, c, q, rootCQ);
    ConvertedPeriodGrowth(rate, c, p, rootCP);
    ConvertedPeriodGrowth(mid, p, q, rootPQ);
    ConvertedPeriodGrowth(rate, c, q, rootCQ);
    SameGrowthSameRate(out, direct, q);
  }

  /** Converting there and back returns the original rate. */
  lemma ConversionRoundTrips(rate: real, c: nat, p: nat, there: real, back: real)
    requires 1 <= c && 1 <= p
    requires 0.0 < PeriodGrowth(rate, c)
    requires IsConversionRoot(there, rate, c, p)
    requires IsConversionRoot(back, ToEquivalentNominalRate(rate, c, p, there), p, c)
    ensures ToEquivalentNominalRate(ToEquivalentNominalRate(rate, c, p, there), p, c, back) == rate
  {
    ConversionsCompose(rate, c, p, c, there, back, 1.0);
  }

  /** Splitting the same nominal rate over one more period strictly raises the annual growth. */
  lemma OneMorePeriodGrowsMore(rate: real, n: nat)
    requires 0.0 < rate && 1 <= n
    ensures AnnualGrowth(rate, n) < AnnualGrowth(rate, n + 1)
  {
    var a, b := PeriodGrowth(rate, n), PeriodGrowth(rate, n + 1);
    var h := GrowthRatio(rate / 100.0, n as real);
    var ratio, bound := 1.0 + h, 1.0 + (n + 1) as real * h;
    assert n as real + 1.0 == (n + 1) as real;
    assert b == a * ratio;
    PowOfProduct(a, ratio, b, n + 1);
    Bernoulli(h, n + 1);
    PowPositive(a, n);
    PowPositive(a, n + 1);
    MulStrictlyMonotone(bound, Pow(ratio, n + 1), Pow(a, n + 1));
    var q := Pow(a, n);
    calc {
      Pow(a, n + 1) * bound;
      (a * q) * bound;
      (a * bound) * q;
      { assert a * bound == 1.0; }
      1.0 * q;
    }
  }

  /** How the growth per period shrinks when one more period shares the rate. */
  lemma GrowthRatio(x: real, m: real) returns (h: real)
    requires 0.0 < x && 1.0 <= m
    ensures -1.0 < h < 0.0
    ensures 1.0 + x / (m + 1.0) == (1.0 + x / m) * (1.0 + h)
    ensures (1.0 + x / m) * (1.0 + (m + 1.0) * h) == 1.0
  {
    var u, v := x / m, x / (m + 1.0);
    MulDiv(x, m);
    MulDiv(x, m + 1.0);
    assert 0.0 < v && 0.0 < u;
    assert (m + 1.0) * (v - u) == -u;
    if u <= v {
      MulMonotone(0.0, v - u, m + 1.0);
      assert false;
    }
    var a := 1.0 + u;
    h := (v - u) / a;
    MulDiv(v - u, a);
    assert a * h == v - u;
    if h <= -1.0 {
      MulMonotone(h, -1.0, a);
      assert false;
    }
    if 0.0 <= h {
      MulMonotone(0.0, h, a);
      assert false;
    }
    calc {
      a * ((m + 1.0) * h);
      (m + 1.0) * (a * h);
      -u;
    }
  }

  lemma {:induction false} MorePeriodsGrowMore(rate: real, m: nat, n: nat)
    requires 0.0 < rate && 1 <= m < n
    ensures AnnualGrowth(rate, m) < AnnualGrowth(rate, n)
    decreases n
  {
    OneMorePeriodGrowsMore(rate, n - 1);
    if m < n - 1 {
      MorePeriodsGrowMore(rate, m, n - 1);
    }
  }

  /**
   Paying more often than interest compounds strictly lowers the nominal rate, paying less
   often strictly raises it; a positive rate stays positive.
   */
  lemma PayingMoreOftenLowersRate(rate: real, compounding: nat, payment: nat, root: real)
    requires 0.0 < rate && 1 <= compounding && 1 <= payment
    requires IsConversionRoot(root, rate, compounding, payment)
    ensures var out := ToEquivalentNominalRate(rate, compounding, payment, root);
            && 0.0 < out
            && (compounding < payment <==> out < rate)
            && (payment < compounding <==> rate < out)
  {
    if compounding != payment {
      var out := ToEquivalentNominalRate(rate, compounding, payment, root);
      ConvertedPeriodGrowth(rate, compounding, payment, root);
      EffectiveRateIsKept(rate, compounding, payment, root);
      GrowthAboveOne(rate, compounding);
      if root <= 1.0 {
        PowMonotone(root, 1.0, payment);
        PowOfOne(payment);
        assert false;
      }
      assert 0.0 < (root - 1.0) * payment as real;
      if compounding < payment {
        MorePeriodsGrowMore(rate, compounding, payment);
        if rate <= out { AnnualGrowthMonotone(rate, out, payment); assert false; }
      } else {
        MorePeriodsGrowMore(rate, payment, compounding);
        if out <= rate { AnnualGrowthMonotone(out, rate, payment); assert false; }
      }
    }
  }

  /** Compounding the same nominal rate less often never converts to a higher one. */
  lemma LessCompoundingLowerRate(rate: real, c: nat, d: nat, payment: nat, rootC: real, rootD: real)
    requires 0.0 < rate && 1 <= c <= d && 1 <= payment
    requires IsConversionRoot(rootC, rate, c, payment) && IsConversionRoot(rootD, rate, d, payment)
    ensures ToEquivalentNominalRate(rate, c, payment, rootC) <= ToEquivalentNominalRate(rate, d, payment, rootD)
    ensures c < d ==> ToEquivalentNominalRate(rate, c, payment, rootC) < ToEquivalentNominalRate(rate, d, payment, rootD)
  {
    var low, high := ToEquivalentNominalRate(rate, c, payment, rootC), ToEquivalentNominalRate(rate, d, payment, rootD);
    PayingMoreOftenLowersRate(rate, c, payment, rootC);
    PayingMoreOftenLowersRate(rate, d, payment, rootD);
    EffectiveRateIsKept(rate, c, payment, rootC);
    EffectiveRateIsKept(rate, d, payment, rootD);
    if c < d {
      MorePeriodsGrowMore(rate, c, d);
      if high <= low { AnnualGrowthMonotone(high, low, payment); assert false; }
    } else {
      GrowthAboveOne(low, payment);
      GrowthAboveOne(high, payment);
      SameGrowthSameRate(low, high, payment);
    }
  }

  lemma AnnualGrowthMonotone(a: real, b: real, periods: nat)
    requires 1 <= periods && 0.0 < a <= b
    ensures AnnualGrowth(a, periods) <= AnnualGrowth(b, periods)
  {
    var n := periods as real;
    assert 0.0 < a / 100.0 / n <= b / 100.0 / n;
    PowMonotone(PeriodGrowth(a, periods), PeriodGrowth(b, periods), periods);
  }

  lemma GrowthAboveOne(rate: real, periods: nat)
    requires 0.0 < rate && 1 <= periods
    ensures 1.0 < PeriodGrowth(rate, periods) && 1.0 < AnnualGrowth(rate, periods)
  {
    var n := periods as real;
    assert 0.0 < rate / 100.0 / n;
    PowStrictlyMonotone(1.0, PeriodGrowth(rate, periods), periods);
    PowOfOne(periods);
  }
}
