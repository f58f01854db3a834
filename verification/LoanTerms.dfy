/**
 The terms a schedule is amortised from (src/common/utils/loan-principal.util.ts). Amounts are
 whole paisa, as the two-decimal columns store them; a missing column is None.
 */
module LoanTerms {
  import opened Wrappers
  import opened Calendar

  datatype Frequency = Monthly | Quarterly | Yearly {
    function PeriodMonths(): (m: nat)
      ensures m * InstalmentsPerYear() == 12
      ensures m == 1 <==> Monthly?
      ensures m == 3 <==> Quarterly?
      ensures m == 12 <==> Yearly?
    {
      match this case Monthly => 1 case Quarterly => 3 case Yearly => 12
    }

    function InstalmentsPerYear(): nat {
      match this case Monthly => 12 case Quarterly => 4 case Yearly => 1
    }
  }

  datatype PeriodUnit = InYears | InMonths

  /** What the application row and the rows joined to it say about the loan. */
  datatype Figures = Figures(
    totalDisbursedAmount: Option<int>,
    creditLimit: Option<int>,
    loanAmount: Option<int>,
    interestRate: Option<real>,
    period: Option<int>,
    periodUnit: Option<PeriodUnit>)

  /** The Credit Manager's columns of the loan account. */
  datatype Servicing = Servicing(
    finalPrincipalAmount: Option<int>,
    finalInterestRate: Option<real>,
    finalTenureMonths: Option<int>,
    repaymentFrequency: Frequency,
    interestFrequency: Option<Frequency>,
    gracePeriodMonths: int,
    emiStartDate: Option<CivilTime>)

  datatype Terms = Terms(
    principal: int,
    interestRate: real,
    tenureMonths: int,
    gracePeriodMonths: int,
    repaymentFrequency: Frequency,
    interestFrequency: Frequency)

  function FinalPrincipal(figures: Figures, account: Option<Servicing>): int {
    var override := if account.Some? then account.value.finalPrincipalAmount else None;
    override.Or(figures.totalDisbursedAmount).Or(figures.creditLimit).Or(figures.loanAmount).GetOr(0)
  }

  function EffectiveTenure(figures: Figures, account: Option<Servicing>): int {
    var override := if account.Some? then account.value.finalTenureMonths else None;
    var period := figures.period.GetOr(0);
    override.GetOr(if figures.periodUnit == Some(InYears) then period * 12 else period)
  }

  function Effective(figures: Figures, account: Option<Servicing>): Terms {
    var finalRate := if account.Some? then account.value.finalInterestRate else None;
    var frequency := if account.Some? then account.value.repaymentFrequency else Monthly;
    var interest := if account.Some? then account.value.interestFrequency else None;
    Terms(FinalPrincipal(figures, account),
          finalRate.Or(figures.interestRate).GetOr(0.0),
          EffectiveTenure(figures, account),
          if account.Some? then account.value.gracePeriodMonths else 0,
          frequency,
          interest.GetOr(frequency))
  }

  /** The most authoritative of several figures, the first that there is. */
  function FirstPresent<T>(sources: seq<Option<T>>, default: T): T {
    if sources == [] then default
    else if sources[0].Some? then sources[0].value
    else FirstPresent(sources[1..], default)
  }

  lemma OneSource<T>(a: Option<T>, default: T)
    ensures FirstPresent([a], default) == a.GetOr(default)
  {
  }

  lemma FirstSource<T>(a: Option<T>, rest: seq<Option<T>>, default: T)
    ensures FirstPresent([a] + rest, default) == if a.Some? then a.value else FirstPresent(rest, default)
  {
    assert ([a] + rest)[1..] == rest;
  }

  function Override<T>(account: Option<Servicing>, column: Servicing -> Option<T>): Option<T> {
    if account.Some? then column(account.value) else None
  }

  /** What the Credit Manager configured comes before what was disbursed, approved or asked for. */
  lemma TermsAreMostAuthoritative(figures: Figures, account: Option<Servicing>)
    ensures var t := Effective(figures, account);
            && t.principal == FirstPresent([Override(account, (a: Servicing) => a.finalPrincipalAmount)] +
                 ([figures.totalDisbursedAmount] + ([figures.creditLimit] + [figures.loanAmount])), 0)
            && t.interestRate == FirstPresent([Override(account, (a: Servicing) => a.finalInterestRate)] +
                 [figures.interestRate], 0.0)
            && t.repaymentFrequency == FirstPresent([Override(account, (a: Servicing) => Some(a.repaymentFrequency))], Monthly)
            && t.interestFrequency == FirstPresent([Override(account, (a: Servicing) => a.interestFrequency)] +
                 [Some(t.repaymentFrequency)], Monthly)
            && t.gracePeriodMonths == FirstPresent([Override(account, (a: Servicing) => Some(a.gracePeriodMonths))], 0)
  {
    var principal := Override(account, (a: Servicing) => a.finalPrincipalAmount);
    FirstSource(principal, [figures.totalDisbursedAmount] + ([figures.creditLimit] + [figures.loanAmount]), 0);
    FirstSource(figures.totalDisbursedAmount, [figures.creditLimit] + [figures.loanAmount], 0);
    FirstSource(figures.creditLimit, [figures.loanAmount], 0);
    OneSource(figures.loanAmount, 0);
    FirstSource(Override(account, (a: Servicing) => a.finalInterestRate), [figures.interestRate], 0.0);
    OneSource(figures.interestRate, 0.0);
    FirstSource(Override(account, (a: Servicing) => a.interestFrequency), [Some(Effective(figures, account).repaymentFrequency)], Monthly);
    OneSource(Some(Effective(figures, account).repaymentFrequency), Monthly);
  }

  /** The configured tenure in months comes before the period asked for, which may be in years. */
  lemma TenureIsInMonths(figures: Figures, account: Option<Servicing>)
    ensures var tenure, override := Effective(figures, account).tenureMonths, Override(account, (a: Servicing) => a.finalTenureMonths);
            && (override.Some? ==> tenure == override.value)
            && (override.None? && figures.period.None? ==> tenure == 0)
            && (override.None? && figures.period.Some? && figures.periodUnit == Some(InYears) ==>
                  tenure == 12 * figures.period.value)
            && (override.None? && figures.period.Some? && figures.periodUnit != Some(InYears) ==>
                  tenure == figures.period.value)
  {
  }

  /** A period in years is the same tenure as twelve times as many months. */
  lemma YearsAreTwelveMonths(figures: Figures, account: Option<Servicing>, years: int)
    ensures EffectiveTenure(figures.(period := Some(years), periodUnit := Some(InYears)), account)
         == EffectiveTenure(figures.(period := Some(12 * years), periodUnit := Some(InMonths)), account)
  {
  }
}
