/**
 The equated-instalment calculator (src/modules/utils/emi-calculator.service.ts).
 Money is in paisa (hundredths of a rupee), so rounding to two decimals is rounding to a
 whole number; rates are exact reals.
 */
module EmiCalculator {
  import opened RealMath

  /** The unrounded instalment that repays `loan` in `n` periods at periodic rate `r`. */
  function Instalment(loan: real, r: real, n: nat): real
    requires 0.0 <= r && 1 <= n
  {
    if r == 0.0 then
      loan / n as real
    else
      PowAboveOne(r, n);
      var pow := Pow(1.0 + r, n);
      (loan * r * pow) / (pow - 1.0)
  }

  datatype Quote = Quote(numberOfInstallments: nat, monthlyEmi: int, totalInterest: int, totalPayment: int)

  function InstallmentCount(tenureMonths: real, installmentsPerYear: nat): int {
    Round(tenureMonths * installmentsPerYear as real / 12.0)
  }

  /** The number of instalments is the tenure in periods to the nearest whole number, half a period counting up. */
  lemma CountIsNearest(tenureMonths: real, installmentsPerYear: nat)
    ensures var n, months := InstallmentCount(tenureMonths, installmentsPerYear) as real, tenureMonths * installmentsPerYear as real;
            12.0 * n - 6.0 <= months < 12.0 * n + 6.0
  {
    var months := tenureMonths * installmentsPerYear as real;
    RoundIsHalfUp(months / 12.0, InstallmentCount(tenureMonths, installmentsPerYear));
  }

  datatype Result = Finite(quote: Quote) | NotFinite

  /**
   What the calculator answers. A tenure that rounds to no instalment at all makes the
   original divide by zero and answer with non-finite numbers.
   */
  function Calculate(loan: real, interestRate: real, tenureMonths: real, installmentsPerYear: nat): Result
    requires 0.0 <= interestRate && 1 <= installmentsPerYear
  {
    var n := InstallmentCount(tenureMonths, installmentsPerYear);
    if n < 1 then NotFinite else
    var r := interestRate / installmentsPerYear as real / 100.0;
    assert 0.0 <= r;
    var emi := Instalment(loan, r, n);
    var total := emi * n as real;
    Finite(Quote(n, Round(emi), Round(total - loan), Round(total)))
  }

  lemma PowAboveOne(r: real, n: nat)
    requires 0.0 < r && 1 <= n
    ensures 1.0 < Pow(1.0 + r, n)
  {
    PowMonotone(1.0, 1.0 + r, n - 1);
    PowOfOne(n - 1);
    MulMonotone(1.0, Pow(1.0 + r, n - 1), 1.0 + r);
  }

  /**
   The balance of an annuity kept to infinite precision: each period multiplies it by the
   growth factor (one plus the rate) and subtracts the instalment.
   */
  function ExactBalance(loan: real, growth: real, instalment: real, k: nat): real {
    if k == 0 then loan
    else ExactBalance(loan, growth, instalment, k - 1) * growth - instalment
  }

  lemma {:induction false} ExactBalanceClosedForm(loan: real, g: real, e: real, k: nat)
    ensures ExactBalance(loan, g, e, k) == loan * Pow(g, k) - e * Geo(g, k)
  {
    if k > 0 {
      ExactBalanceClosedForm(loan, g, e, k - 1);
      var p, s := Pow(g, k - 1), Geo(g, k - 1);
      calc {
        (loan * p - e * s) * g - e;
        loan * (g * p) - e * (g * s + 1.0);
      }
    }
  }

  lemma {:induction false} GeoAtLeastOne(g: real, n: nat)
    requires 0.0 < g && 1 <= n
    ensures 1.0 <= Geo(g, n)
  {
    if n > 1 {
      GeoAtLeastOne(g, n - 1);
      MulMonotone(0.0, Geo(g, n - 1), g);
    }
  }

  /** The instalment times the annuity factor is the compounded loan, with or without interest. */
  lemma InstalmentTimesGeo(loan: real, r: real, n: nat)
    requires 0.0 <= r && 1 <= n
    ensures Instalment(loan, r, n) * Geo(1.0 + r, n) == loan * Pow(1.0 + r, n)
  {
    var pow, s := Pow(1.0 + r, n), Geo(1.0 + r, n);
    if r == 0.0 {
      GeoOfOne(n);
      PowOfOne(n);
      MulDiv(loan, n as real);
    } else {
      PowAboveOne(r, n);
      GeoClosedForm(1.0 + r, n);
      var e := Instalment(loan, r, n);
      MulDiv(loan * r * pow, pow - 1.0);
      assert e * (r * s) == loan * r * pow;
      assert (e * s) * r == (loan * pow) * r;
      MulDiv(e * s, r);
      MulDiv(loan * pow, r);
    }
  }

  /** InstalmentTimesGeo with a name for each factor. */
  lemma InstalmentRatio(loan: real, r: real, n: nat) returns (e: real, s: real, p: real)
    requires 0.0 <= r && 1 <= n
    ensures e == Instalment(loan, r, n) && s == Geo(1.0 + r, n) && p == Pow(1.0 + r, n)
    ensures e * s == loan * p && 1.0 <= s
  {
    e, s, p := Instalment(loan, r, n), Geo(1.0 + r, n), Pow(1.0 + r, n);
    InstalmentTimesGeo(loan, r, n);
    GeoAtLeastOne(1.0 + r, n);
  }

  lemma {:induction false} GeoOfOne(n: nat)
    ensures Geo(1.0, n) == n as real
  {
    if n > 0 {
      GeoOfOne(n - 1);
    }
  }

  lemma ClosedFormByName(loan: real, g: real, e: real, k: nat)
    ensures ExactBalance(loan, g, e, k) == Mul(loan, Pow(g, k)) - Mul(e, Geo(g, k))
  {
    ExactBalanceClosedForm(loan, g, e, k);
  }

  lemma InstalmentByName(loan: real, r: real, n: nat)
    requires 0.0 <= r && 1 <= n
    ensures Mul(Instalment(loan, r, n), Geo(1.0 + r, n)) == Mul(loan, Pow(1.0 + r, n))
  {
    InstalmentTimesGeo(loan, r, n);
  }

  /** The instalment, and no other, drives the exact balance to zero after n periods. */
  lemma InstalmentClearsLoan(loan: real, r: real, n: nat, e: real)
    requires 0.0 <= r && 1 <= n
    ensures ExactBalance(loan, 1.0 + r, e, n) == 0.0 <==> e == Instalment(loan, r, n)
  {
    ClosedFormByName(loan, 1.0 + r, e, n);
    InstalmentByName(loan, r, n);
    GeoAtLeastOne(1.0 + r, n);
    MulCancels(e, Instalment(loan, r, n), Geo(1.0 + r, n));
  }

  /** Every instalment covers more than the first period's interest, so the debt shrinks. */
  lemma InstalmentExceedsInterest(loan: real, r: real, n: nat)
    requires 0.0 < loan && 0.0 <= r && 1 <= n
    ensures loan * r < Instalment(loan, r, n)
  {
    var e, s, pow := InstalmentRatio(loan, r, n);
    GeoClosedForm(1.0 + r, n);
    assert r * s == pow - 1.0;
    assert loan * pow == (loan * r) * s + loan;
    if e <= loan * r {
      MulMonotone(e, loan * r, s);
      assert false;
    }
  }

  /** Altogether the instalments repay at least the loan, and more exactly when interest is charged over time. */
  lemma InstalmentsCoverLoan(loan: real, r: real, n: nat)
    requires 0.0 < loan && 0.0 <= r && 1 <= n
    ensures loan <= n as real * Instalment(loan, r, n)
    ensures r == 0.0 <==> loan == n as real * Instalment(loan, r, n)
  {
    if r == 0.0 {
      MulDiv(loan, n as real);
    } else {
      GeoBelowPowByName(1.0 + r, n);
      InstalmentByName(loan, r, n);
      GeoAtLeastOne(1.0 + r, n);
      RatioAbove(Instalment(loan, r, n), Geo(1.0 + r, n), loan, Pow(1.0 + r, n), n as real);
    }
  }

  lemma GeoBelowPowByName(g: real, n: nat)
    requires 1.0 < g && 1 <= n
    ensures Geo(g, n) < Mul(n as real, Pow(g, n))
  {
    GeoBelowPow(g, n);
  }

  lemma RatioAbove(e: real, s: real, loan: real, p: real, m: real)
    requires 0.0 < s && 0.0 < loan && Mul(e, s) == Mul(loan, p) && s < Mul(m, p)
    ensures loan < Mul(m, e)
  {
    MulRegroups(m, e, s, loan, p);
    MulIsStrictlyMonotone(s, Mul(m, p), loan);
    if Mul(m, e) <= loan {
      MulIsMonotone(Mul(m, e), loan, s);
      MulCommutes(loan, s);
      assert false;
    }
  }

  lemma MulRegroups(m: real, e: real, s: real, loan: real, p: real)
    requires Mul(e, s) == Mul(loan, p)
    ensures Mul(Mul(m, e), s) == Mul(Mul(m, p), loan)
  {
    MulAssociates(m, e, s);
    MulAssociates(m, p, loan);
    MulCommutes(p, loan);
  }

  lemma {:induction false} GeoBelowPow(g: real, n: nat)
    requires 1.0 <= g && 1 <= n
    ensures Geo(g, n) <= n as real * Pow(g, n)
    ensures 1.0 < g ==> Geo(g, n) < n as real * Pow(g, n)
  {
    PowMonotone(1.0, g, n);
    PowOfOne(n);
    if n > 1 {
      GeoBelowPow(g, n - 1);
      var m, q := (n - 1) as real, Pow(g, n - 1);
      MulMonotone(Geo(g, n - 1), m * q, g);
      assert g * (m * q) == m * (g * q);
      assert n as real * Pow(g, n) == m * Pow(g, n) + Pow(g, n);
      if 1.0 < g {
        MulStrictlyMonotone(Geo(g, n - 1), m * q, g);
      }
    }
  }

  /** Growth factors raised to different powers: the larger base wins with the larger power. */
  lemma {:induction false} CrossPowers(a: real, b: real, n: nat, m: nat)
    requires 0.0 < a <= b && m <= n
    ensures Pow(a, n) * Geo(b, m) <= Pow(b, n) * Geo(a, m)
    decreases m
  {
    if m > 0 {
      CrossPowers(a, b, n - 1, m - 1);
      PowMonotone(a, b, n);
      CrossStep(a, b, Pow(a, n - 1), Pow(b, n - 1), Geo(a, m - 1), Geo(b, m - 1),
                Pow(a, n), Pow(b, n), Geo(a, m), Geo(b, m));
    }
  }

  // Geo(x, m) is x * Geo(x, m - 1) + 1; the spare factor comes out of the power.
  lemma CrossStep(a: real, b: real, pa: real, pb: real, ga: real, gb: real, an: real, bn: real, sa: real, sb: real)
    requires 0.0 < a && 0.0 < b && pa * gb <= pb * ga
    requires an == a * pa && bn == b * pb && an <= bn
    requires sa == a * ga + 1.0 && sb == b * gb + 1.0
    ensures an * sb <= bn * sa
  {
    var u, v, w := pa * gb, pb * ga, a * b;
    MulMonotone(0.0, a, b);
    MulMonotone(u, v, w);
    assert an * sb == u * w + an;
    assert bn * sa == v * w + bn;
  }

  /** A higher rate never lowers the instalment, before or after rounding. */
  lemma InstalmentGrowsWithRate(loan: real, low: real, high: real, n: nat)
    requires 0.0 < loan && 0.0 <= low <= high && 1 <= n
    ensures Instalment(loan, low, n) <= Instalment(loan, high, n)
    ensures Round(Instalment(loan, low, n)) <= Round(Instalment(loan, high, n))
  {
    var a, b := 1.0 + low, 1.0 + high;
    var e, sa, pa := InstalmentRatio(loan, low, n);
    var f, sb, pb := InstalmentRatio(loan, high, n);
    CrossPowers(a, b, n, n);
    RatiosOrdered(e, f, sa, sb, pa, pb, loan);
    RoundIsMonotone(e, f);
  }

  lemma RatiosOrdered(e: real, f: real, sa: real, sb: real, pa: real, pb: real, loan: real)
    requires 0.0 < loan && 1.0 <= sa && 1.0 <= sb
    requires e * sa == loan * pa && f * sb == loan * pb && pa * sb <= pb * sa
    ensures e <= f
  {
    var x, y, s := pa * sb, pb * sa, sa * sb;
    MulMonotone(x, y, loan);
    MulMonotone(1.0, sa, sb);
    assert e * s == (e * sa) * sb == loan * x;
    assert f * s == (f * sb) * sa == loan * y;
    if f < e {
      MulStrictlyMonotone(f, e, s);
      assert false;
    }
  }

  /**
   The quote balances to the paisa: for a loan of whole paisa the rounded total payment is the
   loan plus the rounded total interest.
   */
  lemma QuoteBalances(loan: int, interestRate: real, tenureMonths: real, installmentsPerYear: nat)
    requires 0.0 <= interestRate && 1 <= installmentsPerYear
    ensures var c := Calculate(loan as real, interestRate, tenureMonths, installmentsPerYear);
            c.Finite? ==> c.quote.totalPayment == loan + c.quote.totalInterest
  {
    var c := Calculate(loan as real, interestRate, tenureMonths, installmentsPerYear);
    if c.Finite? {
      var n := InstallmentCount(tenureMonths, installmentsPerYear);
      var total := Instalment(loan as real, interestRate / installmentsPerYear as real / 100.0, n) * n as real;
      RoundShifts(total - loan as real, loan);
    }
  }
}
