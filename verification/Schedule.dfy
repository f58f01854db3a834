/**
 The repayment schedule (generateSchedule in
 src/modules/dashboard/repayment/dashboard-repayment.service.ts): every amount is rounded to
 the paisa as it is computed, and the last instalment takes whatever principal is left.
 */
module Schedule {
  import opened RealMath
  import opened Wrappers
  import opened Calendar
  import opened LoanTerms
  import Rates
  import Emi = EmiCalculator

  datatype Row = Row(
    installmentNumber: nat,
    dueDate: int, // milliseconds of local time
    emiAmount: int,
    principalComponent: int,
    interestComponent: int,
    outstandingPrincipal: int)

  datatype Failure = ApplicationNotFound | MissingTerms | TenureNotMultiple

  /** Everything the amortisation loop reads. */
  datatype Plan = Plan(
    principal: int,
    rate: real, // per period
    count: nat,
    emi: int,
    start: CivilTime,
    grace: int,
    periodMonths: nat)

  /** A plan as generateSchedule sets it up: some debt, some interest, and the rounded annuity instalment. */
  ghost predicate Sound(p: Plan) {
    && 0 < p.principal && 0.0 < p.rate && 1 <= p.count && 1 <= p.periodMonths
    && p.emi == Round(Instalment(p))
  }

  function Instalment(p: Plan): real
    requires 0.0 < p.rate && 1 <= p.count
  {
    Emi.Instalment(p.principal as real, p.rate, p.count)
  }

  function Interest(p: Plan, outstanding: int): int {
    Round(outstanding as real * p.rate)
  }

  /** The running balance before the last-row correction; it may fall below zero. */
  function Balance(p: Plan, k: nat): int {
    if k == 0 then p.principal
    else Balance(p, k - 1) - (p.emi - Interest(p, Balance(p, k - 1)))
  }

  /** How many months after the start instalment i falls due. */
  function MonthsTo(p: Plan, i: nat): int {
    p.grace + i * p.periodMonths
  }

  function DueDate(p: Plan, i: nat): int {
    DayAfterMonths(p.start, MonthsTo(p, i)) * MS_PER_DAY + p.start.msInDay
  }

  function InterestAt(p: Plan, i: nat): int
    requires 1 <= i
  {
    Interest(p, Balance(p, i - 1))
  }

  function PrincipalAt(p: Plan, i: nat): int
    requires 1 <= i
  {
    if i == p.count then Balance(p, i - 1) else p.emi - InterestAt(p, i)
  }

  function RowAt(p: Plan, i: nat): Row
    requires 1 <= i
  {
    Row(i, DueDate(p, i), p.emi, PrincipalAt(p, i), InterestAt(p, i), Max(Balance(p, i - 1) - PrincipalAt(p, i), 0))
  }

  function Rows(p: Plan): seq<Row> {
    seq(p.count, j requires 0 <= j < p.count => RowAt(p, j + 1))
  }

  /** The loop of generateSchedule, line by line. */
  method Amortise(p: Plan) returns (entries: seq<Row>)
    ensures entries == Rows(p)
  {
    var outstanding := p.principal;
    entries := [];
    var i := 1;
    while i <= p.count
      invariant 1 <= i <= p.count + 1
      invariant i <= p.count ==> outstanding == Balance(p, i - 1)
      invariant |entries| == i - 1
      invariant forall j :: 0 <= j < i - 1 ==> entries[j] == RowAt(p, j + 1)
    {
      var interestComponent := Interest(p, outstanding);
      var principalComponent := p.emi - interestComponent;
      if i == p.count {
        principalComponent := outstanding;
      }
      outstanding := outstanding - principalComponent;
      entries := entries + [Row(i, DueDate(p, i), p.emi, principalComponent, interestComponent, Max(outstanding, 0))];
      i := i + 1;
    }
  }

  function EffectiveRate(t: Terms, root: real): real {
    Rates.ToEquivalentNominalRate(t.interestRate, t.interestFrequency.InstalmentsPerYear(),
                                  t.repaymentFrequency.InstalmentsPerYear(), root)
  }

  /** What Math.pow must have returned for its fractional power, whenever the rate is a real one. */
  ghost predicate RootFor(t: Terms, root: real) {
    0.0 < t.interestRate ==>
      Rates.IsConversionRoot(root, t.interestRate, t.interestFrequency.InstalmentsPerYear(),
                             t.repaymentFrequency.InstalmentsPerYear())
  }

  function Check(t: Terms): Option<Failure> {
    if t.principal <= 0 || t.interestRate <= 0.0 || t.tenureMonths <= 0 then Some(MissingTerms)
    else if t.tenureMonths % t.repaymentFrequency.PeriodMonths() != 0 then Some(TenureNotMultiple)
    else None
  }

  /**
   What a plan for the terms is, without saying how it is computed: the principal at the periodic
   rate that grows money over a year as the contract rate does at its own cadence, repaid in as
   many periods as fill the tenure, from the start date after the grace period.
   */
  ghost predicate MadeFrom(p: Plan, t: Terms, start: CivilTime) {
    var perYear, compounding := t.repaymentFrequency.InstalmentsPerYear(), t.interestFrequency.InstalmentsPerYear();
    && p.principal == t.principal && p.start == start && p.grace == t.gracePeriodMonths
    && p.periodMonths == t.repaymentFrequency.PeriodMonths() && p.count * p.periodMonths == t.tenureMonths
    && 0.0 < p.rate
    && Pow(1.0 + p.rate, perYear) == Pow(1.0 + t.interestRate / 100.0 / compounding as real, compounding)
  }

  /** The calculator's periodic rate is that rate. */
  lemma PeriodicRate(t: Terms, root: real, rate: real)
    requires 0.0 < t.interestRate && RootFor(t, root)
    requires rate == EffectiveRate(t, root) / t.repaymentFrequency.InstalmentsPerYear() as real / 100.0
    ensures var perYear, compounding := t.repaymentFrequency.InstalmentsPerYear(), t.interestFrequency.InstalmentsPerYear();
            && 0.0 < rate
            && Pow(1.0 + rate, perYear) == Pow(1.0 + t.interestRate / 100.0 / compounding as real, compounding)
  {
    var perYear, compounding := t.repaymentFrequency.InstalmentsPerYear(), t.interestFrequency.InstalmentsPerYear();
    var effective := EffectiveRate(t, root);
    Rates.PayingMoreOftenLowersRate(t.interestRate, compounding, perYear, root);
    Rates.EffectiveRateIsKept(t.interestRate, compounding, perYear, root);
    assert rate == effective / 100.0 / perYear as real;
  }

  /** The plan behind accepted terms, with the calculator's own instalment and instalment count. */
  function PlanFor(t: Terms, root: real, start: CivilTime): (p: Plan)
    requires Check(t).None? && RootFor(t, root)
    ensures Sound(p) && MadeFrom(p, t, start)
  {
    var perYear, months := t.repaymentFrequency.InstalmentsPerYear(), t.repaymentFrequency.PeriodMonths();
    var rate := EffectiveRate(t, root);
    PeriodicRate(t, root, rate / perYear as real / 100.0);
    CountsAgree(t);
    var quote := Emi.Calculate(t.principal as real, rate, t.tenureMonths as real, perYear).quote;
    Plan(t.principal, rate / perYear as real / 100.0, t.tenureMonths / months, quote.monthlyEmi,
         start, t.gracePeriodMonths, months)
  }

  /** Terms and start leave no choice of a sound plan. */
  lemma PlanIsDetermined(p: Plan, q: Plan, t: Terms, start: CivilTime)
    requires Sound(p) && Sound(q) && MadeFrom(p, t, start) && MadeFrom(q, t, start)
    ensures p == q
  {
    RootIsUnique(1.0 + p.rate, 1.0 + q.rate, t.repaymentFrequency.InstalmentsPerYear());
    SameCount(p.count, q.count, p.periodMonths);
  }

  lemma SameCount(m: nat, n: nat, k: nat)
    requires m * k == n * k && 1 <= k
    ensures m == n
  {
    assert m < n ==> m * k < n * k;
    assert n < m ==> n * k < m * k;
  }

  /** The calculator's rounded instalment count is the number of rows, for every frequency. */
  lemma CountsAgree(t: Terms)
    requires Check(t).None?
    ensures var n := Emi.InstallmentCount(t.tenureMonths as real, t.repaymentFrequency.InstalmentsPerYear());
            1 <= n == t.tenureMonths / t.repaymentFrequency.PeriodMonths()
  {
    var months, perYear := t.repaymentFrequency.PeriodMonths(), t.repaymentFrequency.InstalmentsPerYear();
    var n := t.tenureMonths / months;
    assert t.tenureMonths == n * months;
    assert t.tenureMonths as real * perYear as real / 12.0 == n as real;
  }

  /** What a call of generateSchedule stores or throws, for an application that exists. */
  function Generated(figures: Figures, account: Option<Servicing>, now: CivilTime, root: real): Result<seq<Row>, Failure>
    requires RootFor(Effective(figures, account), root)
  {
    var t := Effective(figures, account);
    var failure := Check(t);
    if failure.Some? then Err(failure.value)
    else Ok(Rows(PlanFor(t, root, StartDate(account, now))))
  }

  function StartDate(account: Option<Servicing>, now: CivilTime): CivilTime {
    if account.Some? then account.value.emiStartDate.GetOr(now) else now
  }

  /** The rows amortise a plan made from the terms, of which there is only one. */
  ghost predicate Amortises(rows: seq<Row>, t: Terms, start: CivilTime) {
    exists p :: Sound(p) && MadeFrom(p, t, start) && rows == Rows(p)
  }

  /** When a schedule is refused, and otherwise what it amortises and from when. */
  lemma GeneratedExactlyWhen(figures: Figures, account: Option<Servicing>, now: CivilTime, root: real)
    requires RootFor(Effective(figures, account), root)
    ensures var t, r := Effective(figures, account), Generated(figures, account, now, root);
            var missing := t.principal <= 0 || t.interestRate <= 0.0 || t.tenureMonths <= 0;
            var multiple := t.tenureMonths %
              (match t.repaymentFrequency case Monthly => 1 case Quarterly => 3 case Yearly => 12) == 0;
            && (r == Err(MissingTerms) <==> missing)
            && (r == Err(TenureNotMultiple) <==> !missing && !multiple)
            && (r.Ok? <==> !missing && multiple)
            && (r.Ok? ==>
                  var start := if account.Some? && account.value.emiStartDate.Some? then account.value.emiStartDate.value else now;
                  Amortises(r.value, t, start))
  {
    var t := Effective(figures, account);
    if Check(t).None? {
      var plan := PlanFor(t, root, StartDate(account, now));
      assert Sound(plan) && MadeFrom(plan, t, StartDate(account, now));
    }
  }

  method GenerateSchedule(application: Option<Figures>, account: Option<Servicing>, now: CivilTime, root: real)
    returns (r: Result<seq<Row>, Failure>)
    requires application.Some? ==> RootFor(Effective(application.value, account), root)
    ensures r == if application.None? then Err(ApplicationNotFound)
                 else Generated(application.value, account, now, root)
    ensures r.Ok? ==>
              var start := if account.Some? && account.value.emiStartDate.Some? then account.value.emiStartDate.value else now;
              Amortises(r.value, Effective(application.value, account), start)
  {
    if application.None? {
      return Err(ApplicationNotFound);
    }
    var t := Effective(application.value, account);
    if t.principal <= 0 || t.interestRate <= 0.0 || t.tenureMonths <= 0 {
      return Err(MissingTerms);
    }
    if t.tenureMonths % t.repaymentFrequency.PeriodMonths() != 0 {
      return Err(TenureNotMultiple);
    }
    var plan := PlanFor(t, root, StartDate(account, now));
    var entries := Amortise(plan);
    assert Sound(plan) && MadeFrom(plan, t, StartDate(account, now));
    return Ok(entries);
  }

  // ---- Conservation -------------------------------------------------------------------

  // Totals over the first k rows.

  function TotalPrincipal(rows: seq<Row>, k: nat): int
    requires k <= |rows|
  {
    if k == 0 then 0 else TotalPrincipal(rows, k - 1) + rows[k - 1].principalComponent
  }

  function TotalInterest(rows: seq<Row>, k: nat): int
    requires k <= |rows|
  {
    if k == 0 then 0 else TotalInterest(rows, k - 1) + rows[k - 1].interestComponent
  }

  function TotalBilled(rows: seq<Row>, k: nat): int
    requires k <= |rows|
  {
    if k == 0 then 0 else TotalBilled(rows, k - 1) + rows[k - 1].emiAmount
  }

  lemma RowFields(p: Plan, i: nat)
    requires 1 <= i <= p.count
    ensures var row := Rows(p)[i - 1];
            && row.emiAmount == p.emi
            && row.principalComponent == PrincipalAt(p, i)
            && row.interestComponent == InterestAt(p, i)
            && row.outstandingPrincipal == Max(Balance(p, i - 1) - PrincipalAt(p, i), 0)
  {
  }

  lemma {:induction false} PrefixTotals(p: Plan, k: nat)
    requires k < p.count
    ensures TotalPrincipal(Rows(p), k) == p.principal - Balance(p, k)
    ensures TotalPrincipal(Rows(p), k) + TotalInterest(Rows(p), k) == TotalBilled(Rows(p), k)
  {
    if k > 0 {
      PrefixTotals(p, k - 1);
      RowFields(p, k);
    }
  }

  /** The principal components add up to the loan exactly, and the last row leaves nothing outstanding. */
  lemma PrincipalIsRepaidExactly(p: Plan)
    requires 1 <= p.count
    ensures |Rows(p)| == p.count && TotalPrincipal(Rows(p), p.count) == p.principal
    ensures Rows(p)[p.count - 1].outstandingPrincipal == 0
  {
    PrefixTotals(p, p.count - 1);
    RowFields(p, p.count);
  }

  /**
   Rows are numbered from one and bill the instalment; each stored balance is the loan less the principal
   repaid so far, floored at zero; every row but the last splits the instalment into principal and
   interest without remainder.
   */
  lemma RowsBalance(p: Plan, k: nat)
    requires k < p.count
    ensures var rows := Rows(p);
            && rows[k].installmentNumber == k + 1 && rows[k].emiAmount == p.emi
            && rows[k].outstandingPrincipal == Max(p.principal - TotalPrincipal(rows, k + 1), 0)
            && (k < p.count - 1 ==> rows[k].principalComponent + rows[k].interestComponent == rows[k].emiAmount)
  {
    PrefixTotals(p, k);
    RowFields(p, k + 1);
  }

  // ---- The rounded schedule tracks the exact annuity -----------------------------------

  function Exact(p: Plan, k: nat): real
    requires 0.0 < p.rate && 1 <= p.count
  {
    Emi.ExactBalance(p.principal as real, 1.0 + p.rate, Instalment(p), k)
  }

  /** ((1 + rate)^k - 1) / rate paisa: what one paisa a period grows to in k periods. */
  function DriftBound(p: Plan, k: nat): real
    requires 0.0 < p.rate
  {
    (Pow(1.0 + p.rate, k) - 1.0) / p.rate
  }

  lemma DriftBoundIsGeo(p: Plan, k: nat)
    requires 0.0 < p.rate
    ensures DriftBound(p, k) == Geo(1.0 + p.rate, k)
  {
    GeoClosedForm(1.0 + p.rate, k);
    MulDiv(Geo(1.0 + p.rate, k), p.rate);
  }

  /** One period of a rounded balance beside the exact one; `interest` is the rounded interest. */
  ghost predicate Period(out: nat -> real, exact: nat -> real, interest: nat -> real,
                         rate: real, g: real, emi: real, e: real, i: nat)
  {
    && out(i + 1) == out(i) - (emi - interest(i))
    && exact(i + 1) == exact(i) * g - e
    && Near(interest(i), out(i), rate)
  }

  /** Rounded to the nearest paisa. */
  ghost predicate Near(interest: real, outstanding: real, rate: real) {
    Abs(interest - outstanding * rate) <= 0.5
  }

  /** Drift grows with interest and takes on at most one paisa of new rounding a period. */
  lemma {:induction false} DriftAccumulates(out: nat -> real, exact: nat -> real, interest: nat -> real,
                                            rate: real, g: real, emi: real, e: real, k: nat)
    requires 0.0 < rate && g == 1.0 + rate && Abs(emi - e) <= 0.5 && out(0) == exact(0)
    requires forall i: nat :: Period(out, exact, interest, rate, g, emi, e, i)
    ensures Abs(out(k) - exact(k)) <= Geo(g, k)
  {
    if k > 0 {
      var i := k - 1;
      DriftAccumulates(out, exact, interest, rate, g, emi, e, i);
      assert Period(out, exact, interest, rate, g, emi, e, i);
      DriftGrows(out(i), exact(i), interest(i), rate, g, emi, e, Geo(g, i));
      assert out(k) == out(i) - (emi - interest(i)) && exact(k) == exact(i) * g - e;
    }
  }

  lemma DriftGrows(out: real, exact: real, interest: real, rate: real, g: real, emi: real, e: real, bound: real)
    requires 0.0 < rate && g == 1.0 + rate && Abs(out - exact) <= bound
    requires Near(interest, out, rate) && Abs(emi - e) <= 0.5
    ensures Abs((out - (emi - interest)) - (exact * g - e)) <= g * bound + 1.0
  {
    var drift := out - exact;
    MulMonotone(drift, bound, g);
    MulMonotone(-bound, drift, g);
    assert drift * g == out + out * rate - exact * g;
    assert (-bound) * g == -(g * bound);
    AddRoundings(out, exact * g, drift * g, out * rate, interest, emi, e, g * bound);
  }

  lemma AddRoundings(out: real, exact: real, grown: real, accrued: real, interest: real, emi: real, e: real, bound: real)
    requires grown == out + accrued - exact && -bound <= grown <= bound
    requires Abs(interest - accrued) <= 0.5 && Abs(emi - e) <= 0.5
    ensures Abs((out - (emi - interest)) - (exact - e)) <= bound + 1.0
  {
  }

  function BalanceOf(p: Plan): nat -> real {
    (i: nat) => Balance(p, i) as real
  }

  function ExactOf(p: Plan, g: real, e: real): nat -> real {
    (i: nat) => Emi.ExactBalance(p.principal as real, g, e, i)
  }

  function InterestOf(p: Plan): nat -> real {
    (i: nat) => Interest(p, Balance(p, i)) as real
  }

  lemma PeriodOf(p: Plan, g: real, e: real, i: nat)
    ensures Period(BalanceOf(p), ExactOf(p, g, e), InterestOf(p), p.rate, g, p.emi as real, e, i)
  {
    BalanceUnfolds(p, i);
    ExactUnfolds(p, g, e, i);
    InterestIsNear(p, i);
  }

  lemma BalanceUnfolds(p: Plan, i: nat)
    ensures BalanceOf(p)(i + 1) == BalanceOf(p)(i) - (p.emi as real - InterestOf(p)(i))
  {
    assert Balance(p, i + 1) == Balance(p, i) - (p.emi - Interest(p, Balance(p, i)));
  }

  lemma ExactUnfolds(p: Plan, g: real, e: real, i: nat)
    ensures ExactOf(p, g, e)(i + 1) == ExactOf(p, g, e)(i) * g - e
  {
  }

  lemma InterestIsNear(p: Plan, i: nat)
    ensures Near(InterestOf(p)(i), BalanceOf(p)(i), p.rate)
  {
    InterestOnIsNear(p, Balance(p, i));
  }

  lemma InterestOnIsNear(p: Plan, outstanding: int)
    ensures Near(Interest(p, outstanding) as real, outstanding as real, p.rate)
  {
    RoundIsNear(outstanding as real * p.rate);
  }

  lemma DriftByPeriods(p: Plan, g: real, e: real, k: nat)
    requires 0.0 < p.rate && g == 1.0 + p.rate && Abs(p.emi as real - e) <= 0.5
    ensures Abs(BalanceOf(p)(k) - ExactOf(p, g, e)(k)) <= Geo(g, k)
  {
    var out, exact, interest, emi := BalanceOf(p), ExactOf(p, g, e), InterestOf(p), p.emi as real;
    StartsTogether(p, g, e);
    forall i: nat ensures Period(out, exact, interest, p.rate, g, emi, e, i) {
      PeriodOf(p, g, e, i);
    }
    DriftAccumulates(out, exact, interest, p.rate, g, emi, e, k);
  }

  lemma StartsTogether(p: Plan, g: real, e: real)
    ensures BalanceOf(p)(0) == ExactOf(p, g, e)(0)
  {
  }

  lemma DriftIsBounded(p: Plan, g: real, e: real, k: nat)
    requires 0.0 < p.rate && g == 1.0 + p.rate && Abs(p.emi as real - e) <= 0.5
    ensures Abs(Balance(p, k) as real - Emi.ExactBalance(p.principal as real, g, e, k)) <= Geo(g, k)
  {
    DriftByPeriods(p, g, e, k);
  }

  /** Every running balance of the rounded loop stays within ((1+rate)^k - 1)/rate paisa of the exact annuity. */
  lemma BalanceTracksAnnuity(p: Plan, k: nat)
    requires Sound(p)
    ensures Abs(Balance(p, k) as real - Exact(p, k)) <= DriftBound(p, k)
  {
    var e, g := Instalment(p), 1.0 + p.rate;
    RoundIsNear(e);
    DriftIsBounded(p, g, e, k);
    DriftBoundIsGeo(p, k);
  }

  /** The last row absorbs all rounding: what it collects differs from the instalment by at most the drift bound. */
  lemma LastRowNearInstalment(p: Plan)
    requires Sound(p)
    ensures var last := Rows(p)[p.count - 1];
            Abs((last.principalComponent + last.interestComponent - last.emiAmount) as real) <= DriftBound(p, p.count)
  {
    var n := p.count;
    RowFields(p, n);
    BalanceTracksAnnuity(p, n);
    Emi.InstalmentClearsLoan(p.principal as real, p.rate, n, Instalment(p));
    assert Exact(p, n) == 0.0;
    assert Balance(p, n) == RowAt(p, n).principalComponent + RowAt(p, n).interestComponent - p.emi;
  }

  /**
   What the borrower is billed over the whole schedule, and what the schedule accounts for as
   principal and interest, differ by no more than the drift bound.
   */
  lemma BillingTracksAccounting(p: Plan)
    requires Sound(p)
    ensures var rows, n := Rows(p), p.count;
            Abs((TotalBilled(rows, n) - TotalPrincipal(rows, n) - TotalInterest(rows, n)) as real) <= DriftBound(p, n)
  {
    var n := p.count;
    PrefixTotals(p, n - 1);
    LastRowNearInstalment(p);
  }

  lemma {:induction false} BilledEvenly(p: Plan, k: nat)
    requires k <= p.count
    ensures TotalBilled(Rows(p), k) == k * p.emi
  {
    if k > 0 {
      BilledEvenly(p, k - 1);
      RowFields(p, k);
      assert k * p.emi == (k - 1) * p.emi + p.emi;
    }
  }

  /** What the borrower would pay altogether without rounding. */
  function ExactTotal(p: Plan): real
    requires 0.0 < p.rate && 1 <= p.count
  {
    Times(p.count, Instalment(p))
  }

  /** The interest the calculator quotes for a plan. */
  function QuotedInterest(p: Plan): int
    requires 0.0 < p.rate && 1 <= p.count
  {
    Round(ExactTotal(p) - p.principal as real)
  }

  lemma BilledNearExact(p: Plan)
    requires Sound(p)
    ensures Abs(TotalBilled(Rows(p), p.count) as real - ExactTotal(p)) <= p.count as real * 0.5
  {
    BilledNear(p, Instalment(p), ExactTotal(p));
  }

  lemma BilledNear(p: Plan, e: real, exact: real)
    requires p.emi == Round(e) && exact == Times(p.count, e)
    ensures Abs(TotalBilled(Rows(p), p.count) as real - exact) <= p.count as real * 0.5
  {
    BilledEvenly(p, p.count);
    RoundedTimesNamed(p.count, e, p.emi, TotalBilled(Rows(p), p.count), exact);
  }

  lemma QuotedNearExact(p: Plan)
    requires Sound(p)
    ensures Abs(QuotedInterest(p) as real - (ExactTotal(p) - p.principal as real)) <= 0.5
  {
    RoundIsNear(ExactTotal(p) - p.principal as real);
  }

  /**
   The interest the schedule charges differs from the interest the calculator quoted by at most the
   drift bound and half a paisa for each instalment and for the quote.
   */
  lemma ScheduleTracksQuote(p: Plan)
    requires Sound(p)
    ensures Abs((TotalInterest(Rows(p), p.count) - QuotedInterest(p)) as real)
            <= DriftBound(p, p.count) + p.count as real * 0.5 + 0.5
  {
    var rows, n := Rows(p), p.count;
    BillingTracksAccounting(p);
    PrincipalIsRepaidExactly(p);
    BilledNearExact(p);
    QuotedNearExact(p);
    QuoteApart(TotalInterest(rows, n), TotalBilled(rows, n), p.principal, ExactTotal(p), QuotedInterest(p),
               DriftBound(p, n), n as real * 0.5);
  }

  lemma QuoteApart(interest: int, billed: int, principal: int, total: real, quoted: int, drift: real, rounding: real)
    requires Abs((billed - principal - interest) as real) <= drift && Abs(billed as real - total) <= rounding
    requires Abs(quoted as real - (total - principal as real)) <= 0.5
    ensures Abs((interest - quoted) as real) <= drift + rounding + 0.5
  {
  }

  lemma RateIsTheCalculators(p: Plan, t: Terms, root: real, start: CivilTime)
    requires Check(t).None? && RootFor(t, root) && MadeFrom(p, t, start)
    ensures p.rate == EffectiveRate(t, root) / t.repaymentFrequency.InstalmentsPerYear() as real / 100.0
    ensures 0.0 <= EffectiveRate(t, root)
  {
    var rate := EffectiveRate(t, root) / t.repaymentFrequency.InstalmentsPerYear() as real / 100.0;
    PeriodicRate(t, root, rate);
    RootIsUnique(1.0 + p.rate, 1.0 + rate, t.repaymentFrequency.InstalmentsPerYear());
    if EffectiveRate(t, root) < 0.0 {
      assert false;
    }
  }

  lemma CountIsTheCalculators(p: Plan, t: Terms, start: CivilTime)
    requires Check(t).None? && MadeFrom(p, t, start)
    ensures p.count == Emi.InstallmentCount(t.tenureMonths as real, t.repaymentFrequency.InstalmentsPerYear())
  {
    CountsAgree(t);
    SameCount(p.count, t.tenureMonths / p.periodMonths, p.periodMonths);
  }

  lemma QuoteFor(p: Plan, rate: real, tenureMonths: real, perYear: nat)
    requires Sound(p) && 0.0 <= rate && 1 <= perYear && p.rate == rate / perYear as real / 100.0
    requires p.count == Emi.InstallmentCount(tenureMonths, perYear)
    ensures var c := Emi.Calculate(p.principal as real, rate, tenureMonths, perYear);
            && c.Finite? && c.quote.numberOfInstallments == |Rows(p)|
            && c.quote.monthlyEmi == p.emi && c.quote.totalInterest == QuotedInterest(p)
  {
  }

  /** The calculator asked about the terms quotes just that interest and that many instalments. */
  lemma QuoteIsForThePlan(p: Plan, t: Terms, root: real, start: CivilTime)
    requires Check(t).None? && RootFor(t, root) && Sound(p) && MadeFrom(p, t, start)
    ensures 0.0 <= EffectiveRate(t, root)
    ensures var c := Emi.Calculate(t.principal as real, EffectiveRate(t, root), t.tenureMonths as real,
                                   t.repaymentFrequency.InstalmentsPerYear());
            && c.Finite? && c.quote.numberOfInstallments == |Rows(p)|
            && c.quote.monthlyEmi == p.emi && c.quote.totalInterest == QuotedInterest(p)
  {
    RateIsTheCalculators(p, t, root, start);
    CountIsTheCalculators(p, t, start);
    QuoteFor(p, EffectiveRate(t, root), t.tenureMonths as real, t.repaymentFrequency.InstalmentsPerYear());
  }

  // ---- Monotonicity ---------------------------------------------------------------------

  /** The balance never rises and interest never rises with it. */
  lemma {:induction false} BalanceFalls(p: Plan, k: nat)
    requires Sound(p)
    ensures Balance(p, k + 1) <= Balance(p, k)
    ensures Interest(p, Balance(p, k + 1)) <= Interest(p, Balance(p, k))
  {
    if k == 0 {
      Emi.InstalmentExceedsInterest(p.principal as real, p.rate, p.count);
      RoundIsMonotone(p.principal as real * p.rate, Instalment(p));
    } else {
      BalanceFalls(p, k - 1);
    }
    InterestIsMonotone(p, Balance(p, k + 1), Balance(p, k));
  }

  lemma InterestIsMonotone(p: Plan, low: int, high: int)
    requires 0.0 < p.rate && low <= high
    ensures Interest(p, low) <= Interest(p, high)
  {
    MulMonotone(low as real, high as real, p.rate);
    RoundIsMonotone(low as real * p.rate, high as real * p.rate);
  }

  lemma {:induction false} BalanceFallsFrom(p: Plan, j: nat, k: nat)
    requires Sound(p) && j <= k
    ensures Balance(p, k) <= Balance(p, j)
    ensures Interest(p, Balance(p, k)) <= Interest(p, Balance(p, j))
    decreases k
  {
    if j < k {
      BalanceFallsFrom(p, j, k - 1);
      BalanceFalls(p, k - 1);
    }
  }

  /** On all rows but the last: interest never rises, principal never falls and is never negative, balances never rise. */
  lemma RowsAreMonotone(p: Plan, j: nat, k: nat)
    requires Sound(p) && j <= k < p.count - 1
    ensures var rows := Rows(p);
            && rows[k].interestComponent <= rows[j].interestComponent
            && 0 <= rows[j].principalComponent <= rows[k].principalComponent
            && rows[k].outstandingPrincipal <= rows[j].outstandingPrincipal
  {
    BalanceFallsFrom(p, j, k);
    BalanceFallsFrom(p, j + 1, k + 1);
    BalanceFalls(p, j);
    assert Rows(p)[j] == RowAt(p, j + 1) && Rows(p)[k] == RowAt(p, k + 1);
  }

  // ---- The clamp --------------------------------------------------------------------------

  /** Line 182 changes a stored balance only if the running balance has gone below zero. */
  ghost predicate ClampActs(p: Plan) {
    exists k :: 0 <= k < p.count && Balance(p, k) < 0
  }

  /** A balance below zero shows in the final principal component, so one look at the last row decides. */
  lemma ClampShowsInLastRow(p: Plan)
    requires Sound(p)
    ensures ClampActs(p) <==> Rows(p)[p.count - 1].principalComponent < 0
  {
    var n := p.count;
    RowFields(p, n);
    if ClampActs(p) {
      var k :| 0 <= k < n && Balance(p, k) < 0;
      BalanceFallsFrom(p, k, n - 1);
    }
  }

  lemma ExactBeforeLast(p: Plan)
    requires Sound(p)
    ensures Exact(p, p.count - 1) == Instalment(p) / (1.0 + p.rate)
  {
    Emi.InstalmentClearsLoan(p.principal as real, p.rate, p.count, Instalment(p));
    MulDiv(Exact(p, p.count - 1), 1.0 + p.rate);
  }

  /**
   If the discounted instalment covers the drift bound, no balance is ever negative, the clamp
   never acts and no principal component is negative. The condition is on the inputs alone.
   */
  lemma LargeInstalmentsNeverOvershoot(p: Plan)
    requires Sound(p)
    requires DriftBound(p, p.count - 1) <= Instalment(p) / (1.0 + p.rate)
    ensures !ClampActs(p)
    ensures forall k :: 0 <= k < p.count ==> 0 <= Rows(p)[k].principalComponent
  {
    var n := p.count;
    BalanceTracksAnnuity(p, n - 1);
    ExactBeforeLast(p);
    assert 0.0 <= Balance(p, n - 1) as real;
    forall k | 0 <= k < n ensures 0 <= Balance(p, k) {
      BalanceFallsFrom(p, k, n - 1);
    }
    forall k | 0 <= k < n ensures 0 <= Rows(p)[k].principalComponent {
      assert Rows(p)[k] == RowAt(p, k + 1);
      BalanceFalls(p, k);
    }
  }

  /** Tiny loans do overshoot: two paisa over four periods at one percent run below zero. */
  lemma TinyLoansOvershoot(start: CivilTime, p: Plan)
    requires p == Plan(2, 0.01, 4, 1, start, 0, 1)
    ensures Sound(p) && ClampActs(p)
    ensures Rows(p)[2].outstandingPrincipal == 0 && Rows(p)[3].principalComponent == -1
  {
    assert Pow(1.01, 4) == 1.04060401 by {
      assert Pow(1.01, 2) == 1.0201;
      assert Pow(1.01, 3) == 1.030301;
    }
    var e := Instalment(p);
    assert e == (2.0 * 0.01 * 1.04060401) / 0.04060401;
    assert 0.5 <= e < 1.5;
    assert Balance(p, 1) == 1;
    assert Balance(p, 2) == 0;
    assert Balance(p, 3) == -1;
  }

  // ---- Due dates ---------------------------------------------------------------------------

  /**
   Consecutive due dates are as far apart as the months between are long, so roll-over never
   accumulates; they strictly increase for every start day, grace period and frequency.
   */
  lemma DueDatesAdvance(p: Plan, i: nat)
    requires 1 <= p.periodMonths
    ensures var gap := Span(MonthIndex(p.start) + MonthsTo(p, i), p.periodMonths);
            && DueDate(p, i + 1) == DueDate(p, i) + gap * MS_PER_DAY
            && 28 * p.periodMonths <= gap <= 31 * p.periodMonths
            && (p.periodMonths == 3 ==> 89 <= gap <= 92)
            && (p.periodMonths == 12 ==> 365 <= gap <= 366)
            && DueDate(p, i) < DueDate(p, i + 1)
  {
    var index := MonthIndex(p.start) + MonthsTo(p, i);
    DueDatesApart(p, i);
    SpanBounds(index, p.periodMonths);
    QuarterSpan(index);
    YearSpan(index);
  }

  lemma DueDatesApart(p: Plan, i: nat)
    ensures DueDate(p, i + 1) == DueDate(p, i) + Span(MonthIndex(p.start) + MonthsTo(p, i), p.periodMonths) * MS_PER_DAY
  {
    OnePeriodOn(p, i);
    DaysBetween(p.start, MonthsTo(p, i), p.periodMonths);
  }

  lemma OnePeriodOn(p: Plan, i: nat)
    ensures MonthsTo(p, i + 1) == MonthsTo(p, i) + p.periodMonths
  {
  }

  /**
   Row k is due on the day that setMonth gives for the start date moved on by the grace period and
   k periods, at the same time of day.
   */
  lemma DueDatesAreSetMonth(p: Plan, k: nat)
    requires 1 <= k <= p.count
    ensures Rows(p)[k - 1].dueDate ==
              MakeDay(p.start.year, p.start.month + p.grace + k * p.periodMonths, p.start.day) * 86_400_000
              + p.start.msInDay
  {
    SetMonthIsMakeDay(p.start, MonthsTo(p, k));
    MonthsAre(p, k);
    RowDue(p, k);
  }

  lemma MonthsAre(p: Plan, k: nat)
    ensures p.start.month + MonthsTo(p, k) == p.start.month + p.grace + k * p.periodMonths
  {
  }

  lemma RowDue(p: Plan, k: nat)
    requires 1 <= k <= p.count
    ensures Rows(p)[k - 1].dueDate == DayAfterMonths(p.start, MonthsTo(p, k)) * MS_PER_DAY + p.start.msInDay
  {
  }

  lemma {:induction false} DueDatesIncrease(p: Plan, i: nat, j: nat)
    requires 1 <= p.periodMonths && i < j
    ensures DueDate(p, i) < DueDate(p, j)
    decreases j
  {
    DueDatesAdvance(p, j - 1);
    if i < j - 1 {
      DueDatesIncrease(p, i, j - 1);
    }
  }

  lemma {:induction false} BalanceIgnoresGrace(p: Plan, grace: int, k: nat)
    ensures Balance(p.(grace := grace), k) == Balance(p, k)
  {
    if k > 0 {
      BalanceIgnoresGrace(p, grace, k - 1);
    }
  }

  lemma AmountsIgnoreGrace(p: Plan, grace: int, i: nat)
    requires 1 <= i
    ensures var q := p.(grace := grace);
            InterestAt(q, i) == InterestAt(p, i) && PrincipalAt(q, i) == PrincipalAt(p, i)
  {
    BalanceIgnoresGrace(p, grace, i - 1);
    InterestIgnoresGrace(p, grace, Balance(p, i - 1));
  }

  lemma InterestIgnoresGrace(p: Plan, grace: int, outstanding: int)
    ensures Interest(p.(grace := grace), outstanding) == Interest(p, outstanding)
  {
  }

  /** A grace period postpones the due dates and changes no amount. */
  lemma GraceOnlyPostpones(p: Plan, grace: int, i: nat)
    requires 1 <= i
    ensures RowAt(p.(grace := grace), i) == RowAt(p, i).(dueDate := DueDate(p.(grace := grace), i))
  {
    var q := p.(grace := grace);
    BalanceIgnoresGrace(p, grace, i - 1);
    AmountsIgnoreGrace(p, grace, i);
    RowFrom(p, i, Balance(p, i - 1), PrincipalAt(p, i), InterestAt(p, i), DueDate(p, i));
    RowFrom(q, i, Balance(q, i - 1), PrincipalAt(q, i), InterestAt(q, i), DueDate(q, i));
  }

  lemma RowFrom(p: Plan, i: nat, balance: int, principal: int, interest: int, due: int)
    requires 1 <= i && balance == Balance(p, i - 1) && principal == PrincipalAt(p, i) && interest == InterestAt(p, i)
    requires due == DueDate(p, i)
    ensures RowAt(p, i) == Row(i, due, p.emi, principal, interest, Max(balance - principal, 0))
  {
  }

  // ---- Compounding less often than paying -------------------------------------------------

  /**
   Of two schedules that differ only in how often interest compounds, the one compounding less
   often never asks for a larger instalment.
   */
  lemma LessCompoundingNeverCostsMore(t: Terms, u: Terms, rootT: real, rootU: real, start: CivilTime)
    requires Check(t).None? && RootFor(t, rootT) && RootFor(u, rootU)
    requires u == t.(interestFrequency := u.interestFrequency)
    requires t.interestFrequency.InstalmentsPerYear() <= u.interestFrequency.InstalmentsPerYear()
    ensures PlanFor(t, rootT, start).emi <= PlanFor(u, rootU, start).emi
  {
    var c, d := t.interestFrequency.InstalmentsPerYear(), u.interestFrequency.InstalmentsPerYear();
    var p := t.repaymentFrequency.InstalmentsPerYear();
    var low, high := EffectiveRate(t, rootT), EffectiveRate(u, rootU);
    Rates.LessCompoundingLowerRate(t.interestRate, c, d, p, rootT, rootU);
    Rates.PayingMoreOftenLowersRate(t.interestRate, c, p, rootT);
    CountsAgree(t);
    var n := t.tenureMonths / t.repaymentFrequency.PeriodMonths();
    assert 0.0 < low / p as real / 100.0 <= high / p as real / 100.0;
    Emi.InstalmentGrowsWithRate(t.principal as real, low / p as real / 100.0, high / p as real / 100.0, n);
  }
}
