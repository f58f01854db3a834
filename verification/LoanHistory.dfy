/** What a loan's rows say about the requests that led to them, over every run. */
module LoanHistory {
  import opened Wrappers
  import opened Calendar
  import Schedule
  import opened LoanTerms
  import opened Entries
  import opened LoanState
  import Inv = LoanInvariants

  // ---- Servicing terms -------------------------------------------------------------------------

  /** Request k is a configuration that was not refused. */
  predicate Configures(states: seq<State>, steps: seq<Step>, k: nat)
    requires k < |steps| && |states| == |steps| + 1
  {
    steps[k].ConfigureServicing? && ConfigurationError(states[k], steps[k].configuration).None?
  }

  /** The last thing that the first k requests said about one column. */
  function LastGiven<T>(states: seq<State>, steps: seq<Step>, k: nat, column: Configuration -> Given<T>): Given<T>
    requires k <= |steps| && |states| == |steps| + 1
  {
    if k == 0 then Omitted
    else if Configures(states, steps, k - 1) && !column(steps[k - 1].configuration).Omitted? then
      column(steps[k - 1].configuration)
    else LastGiven(states, steps, k - 1, column)
  }

  // The two final figures are read back from their columns, rounded to two decimals.
  const FINAL_PRINCIPAL: Configuration -> Given<int> := (c: Configuration) =>
    match c.finalPrincipalAmount
    case Omitted => Omitted
    case Null => Null
    case Value(amount) => Value(Stored(amount))
  const FINAL_RATE: Configuration -> Given<real> := (c: Configuration) =>
    match c.finalInterestRate
    case Omitted => Omitted
    case Null => Null
    case Value(percent) => Value(StoredPercent(percent))
  const FINAL_TENURE: Configuration -> Given<int> := (c: Configuration) => c.finalTenureMonths
  const REPAYMENT: Configuration -> Given<Frequency> := (c: Configuration) => c.repaymentFrequency
  const INTEREST: Configuration -> Given<Frequency> := (c: Configuration) => c.interestFrequency
  const GRACE: Configuration -> Given<int> := (c: Configuration) => c.gracePeriodMonths
  const START: Configuration -> Given<CivilTime> := (c: Configuration) =>
    if c.emiStartDate.Null? then Omitted else c.emiStartDate

  /** What the account's columns should be after the first k requests. */
  function TermsGiven(states: seq<State>, steps: seq<Step>, k: nat): Servicing
    requires k <= |steps| && |states| == |steps| + 1
  {
    Servicing(LastGiven(states, steps, k, FINAL_PRINCIPAL).Over(None), LastGiven(states, steps, k, FINAL_RATE).Over(None),
              LastGiven(states, steps, k, FINAL_TENURE).Over(None),
              LastGiven(states, steps, k, REPAYMENT).Over(None).GetOr(Monthly),
              LastGiven(states, steps, k, INTEREST).Over(None), LastGiven(states, steps, k, GRACE).Over(None).GetOr(0),
              LastGiven(states, steps, k, START).Over(None))
  }

  lemma StepKeepsTerms(s: State, step: Step)
    requires s.account.Some?
    requires !(step.ConfigureServicing? && ConfigurationError(s, step.configuration).None?)
    ensures ServicingOf(Apply(s, step).state) == ServicingOf(s)
  {
    if IsApproval(step) {
      ApprovalKeepsAccount(s, step);
    } else if IsServicing(step) {
      ServicingKeepsTerms(s, step);
    } else {
      PaperworkFrame(s, step);
    }
  }

  lemma ApprovalKeepsAccount(s: State, step: Step)
    requires IsApproval(step) && s.account.Some?
    ensures Apply(s, step).state.account == s.account
  {
  }

  lemma ServicingKeepsTerms(s: State, step: Step)
    requires IsServicing(step)
    requires !(step.ConfigureServicing? && ConfigurationError(s, step.configuration).None?)
    ensures ServicingOf(Apply(s, step).state) == ServicingOf(s)
  {
  }

  lemma StepConfigures(s: State, step: Step)
    requires step.ConfigureServicing? && ConfigurationError(s, step.configuration).None?
    ensures ServicingOf(Apply(s, step).state) == Some(Configured(s.account.value, step.configuration).servicing)
  {
  }

  lemma StepOpensWithDefaults(s: State, step: Step)
    requires s.account.None? && Apply(s, step).state.account.Some?
    ensures ServicingOf(Apply(s, step).state) == Some(NEW_SERVICING)
  {
    Inv.StepOpensAccount(s, step);
  }

  lemma TermsConfigured(states: seq<State>, steps: seq<Step>, k: nat)
    requires 0 < k <= |steps| && |states| == |steps| + 1 && Configures(states, steps, k - 1)
    requires states[k - 1].account.Some?
             && states[k - 1].account.value.servicing == TermsGiven(states, steps, k - 1)
    ensures Configured(states[k - 1].account.value, steps[k - 1].configuration).servicing == TermsGiven(states, steps, k)
  {
  }

  lemma TermsUnchanged(states: seq<State>, steps: seq<Step>, k: nat)
    requires 0 < k <= |steps| && |states| == |steps| + 1 && !Configures(states, steps, k - 1)
    ensures TermsGiven(states, steps, k) == TermsGiven(states, steps, k - 1)
  {
  }

  /**
   Each servicing term of an account is what the last accepted configuration that mentioned it said,
   its default if none did or if that was a null: leaving a term out never resets it, in any run.
   */
  lemma {:induction false} TermsAreTheLastGiven(states: seq<State>, steps: seq<Step>, k: nat)
    requires Run(states, steps) && k < |states|
    ensures states[k].account.Some? ==> states[k].account.value.servicing == TermsGiven(states, steps, k)
    ensures states[k].account.None? ==> TermsGiven(states, steps, k) == NEW_SERVICING
  {
    if k > 0 {
      TermsAreTheLastGiven(states, steps, k - 1);
      assert Follows(states, steps, k - 1);
      var s, step := states[k - 1], steps[k - 1];
      Inv.StepExtends(s, step);
      if Configures(states, steps, k - 1) {
        StepConfigures(s, step);
        TermsConfigured(states, steps, k);
      } else {
        TermsUnchanged(states, steps, k);
        if s.account.Some? {
          StepKeepsTerms(s, step);
        } else if states[k].account.Some? {
          StepOpensWithDefaults(s, step);
        }
      }
    }
  }

  /** Approval alone changes no term: until something is configured the application's own figures apply. */
  lemma ApprovalKeepsTerms(figures: Figures)
    ensures Effective(figures, Some(NEW_SERVICING)) == Effective(figures, None)
  {
  }

  // ---- Review ------------------------------------------------------------------------------------

  predicate UnderReview(s: State) {
    s.account.Some? && s.account.value.status == NeedsReview
  }

  /** The role may resolve the review of this account. */
  predicate MayResolve(role: Role, a: Account) {
    role in {CreditManager, Admin} || a.reviewAssignedRole == Some(role)
  }

  lemma StepEndsReview(s: State, step: Step)
    requires UnderReview(s) && !UnderReview(Apply(s, step).state)
    ensures (step.ResolveReview? && MayResolve(step.role, s.account.value))
            || (step.CompleteClearance? && AllPaid(s.entries))
  {
    if IsApproval(step) {
      ApprovalKeepsAccount(s, step);
    } else if IsServicing(step) {
      ServicingEndsReview(s, step);
    } else {
      PaperworkFrame(s, step);
    }
  }

  lemma ServicingEndsReview(s: State, step: Step)
    requires IsServicing(step) && UnderReview(s) && !UnderReview(Apply(s, step).state)
    ensures (step.ResolveReview? && MayResolve(step.role, s.account.value))
            || (step.CompleteClearance? && AllPaid(s.entries))
  {
    if SetsUpLoan(step) {
      SettingUpKeepsStatus(s, step);
    }
  }

  lemma SettingUpKeepsStatus(s: State, step: Step)
    requires SetsUpLoan(step) && UnderReview(s)
    ensures UnderReview(Apply(s, step).state)
  {
  }

  /**
   A review that was open and no longer is was resolved by the Credit Manager, an administrator or
   the assigned role, or ended with the closing of a fully paid loan. No payment ends it.
   */
  lemma {:induction false} ReviewEndsByAuthority(states: seq<State>, steps: seq<Step>, i: nat, j: nat) returns (k: nat)
    requires Run(states, steps) && i < j < |states| && UnderReview(states[i]) && !UnderReview(states[j])
    ensures i <= k < j && UnderReview(states[k])
    ensures (steps[k].ResolveReview? && MayResolve(steps[k].role, states[k].account.value))
            || (steps[k].CompleteClearance? && AllPaid(states[k].entries))
    decreases j
  {
    if UnderReview(states[j - 1]) {
      assert Follows(states, steps, j - 1);
      StepEndsReview(states[j - 1], steps[j - 1]);
      k := j - 1;
    } else {
      k := ReviewEndsByAuthority(states, steps, i, j - 1);
    }
  }

  // ---- The Approver's date -----------------------------------------------------------------------

  /** Request k wrote the date: an approval, or an edit by the Initiator. */
  predicate WritesDate(states: seq<State>, steps: seq<Step>, k: nat)
    requires k < |steps| && |states| == |steps| + 1
  {
    (steps[k] == Approve || steps[k].EditApproverDate?) && Succeeded(states, steps, k)
  }

  /** Request j was the Initiator's edit of the date, and none of the first k requests wrote it since. */
  ghost predicate LastWriteIsEdit(states: seq<State>, steps: seq<Step>, j: nat, k: nat, dated: bool)
    requires j < k <= |steps| && |states| == |steps| + 1
  {
    && steps[j] == EditApproverDate(dated) && Succeeded(states, steps, j)
    && forall m :: j < m < k ==> !WritesDate(states, steps, m)
  }

  lemma StepOnDate(s: State, step: Step)
    ensures var o := Apply(s, step);
            o.state.approverDated ==
              if step == Approve && o.error.None? then true
              else if step.EditApproverDate? && o.error.None? then step.dated
              else s.approverDated
  {
    if IsServicing(step) {
      ServicingFrame(s, step);
    } else if !IsApproval(step) {
      PaperworkOnDate(s, step);
    }
  }

  lemma PaperworkOnDate(s: State, step: Step)
    requires !IsApproval(step) && !IsServicing(step)
    ensures var o := Apply(s, step);
            o.state.approverDated == if step.EditApproverDate? && o.error.None? then step.dated else s.approverDated
  {
  }

  /** The last write of the date, by k, was an edit that contradicts whether there is an account. */
  ghost predicate EditDecides(states: seq<State>, steps: seq<Step>, k: nat)
    requires k <= |steps| && |states| == |steps| + 1
  {
    exists j :: 0 <= j < k && LastWriteIsEdit(states, steps, j, k, states[k].account.None?)
  }

  /**
   The Approver's date and the loan account disagree, one being there without the other, exactly if
   the last request to write the date was an edit by the Initiator to the contrary.
   */
  lemma {:induction false} DateDisagreesExactlyWhen(states: seq<State>, steps: seq<Step>, k: nat)
    requires Run(states, steps) && k < |states|
    ensures states[k].approverDated != states[k].account.Some? <==> EditDecides(states, steps, k)
  {
    if k > 0 {
      var s, step := states[k - 1], steps[k - 1];
      DateDisagreesExactlyWhen(states, steps, k - 1);
      assert Follows(states, steps, k - 1);
      StepOnDate(s, step);
      if s.account.Some? {
        Inv.StepExtendsAccount(s, step);
      } else {
        Inv.StepOpensAccount(s, step);
      }
      if WritesDate(states, steps, k - 1) {
        LastRequestSettles(states, steps, k);
      } else {
        NothingWritten(states, steps, k);
      }
    }
  }

  lemma LastRequestSettles(states: seq<State>, steps: seq<Step>, k: nat)
    requires 0 < k <= |steps| && |states| == |steps| + 1 && WritesDate(states, steps, k - 1)
    ensures EditDecides(states, steps, k) <==> steps[k - 1] == EditApproverDate(states[k].account.None?)
  {
    var dated := states[k].account.None?;
    forall j | 0 <= j < k - 1 ensures !LastWriteIsEdit(states, steps, j, k, dated) {
      assert WritesDate(states, steps, k - 1);
    }
    assert LastWriteIsEdit(states, steps, k - 1, k, dated) <==> steps[k - 1] == EditApproverDate(dated);
  }

  lemma NothingWritten(states: seq<State>, steps: seq<Step>, k: nat)
    requires 0 < k <= |steps| && |states| == |steps| + 1 && !WritesDate(states, steps, k - 1)
    requires states[k].account.None? == states[k - 1].account.None?
    ensures EditDecides(states, steps, k) <==> EditDecides(states, steps, k - 1)
  {
    var dated := states[k].account.None?;
    if EditDecides(states, steps, k) {
      var j :| 0 <= j < k && LastWriteIsEdit(states, steps, j, k, dated);
      assert LastWriteIsEdit(states, steps, j, k - 1, dated);
    }
    if EditDecides(states, steps, k - 1) {
      var j :| 0 <= j < k - 1 && LastWriteIsEdit(states, steps, j, k - 1, dated);
      assert LastWriteIsEdit(states, steps, j, k, dated);
    }
  }

  /** From rows that agree, one request makes them disagree exactly if it is such an edit and let through. */
  lemma WhenARequestMakesThemDisagree(s: State, step: Step)
    requires s.approverDated == s.account.Some?
    ensures var t := Apply(s, step).state;
            t.approverDated != t.account.Some? <==>
              step.EditApproverDate? && InitiatorCanEdit(s) && step.dated != s.account.Some?
  {
    StepOnDate(s, step);
    if s.account.Some? {
      Inv.StepExtendsAccount(s, step);
    } else {
      Inv.StepOpensAccount(s, step);
    }
  }

  /** A fresh application can carry an Approver's date without ever having been approved. */
  lemma DatedWithoutApproval(s: State)
    requires Initial(s)
    ensures var t := Apply(s, EditApproverDate(true)).state; t.approverDated && t.account.None?
  {
  }

  /** An approved one, however far its loan has got, can lose the date once it is sent back to the Initiator. */
  lemma UndatedThoughApproved(s: State, role: Role)
    requires s.account.Some?
    ensures var t := Apply(Apply(s, SendBack(role, None)).state, EditApproverDate(false)).state;
            !t.approverDated && t.account == s.account
  {
    var sent := Apply(s, SendBack(role, None)).state;
    assert sent == DoSendBack(s, role, None).state;
  }

  // ---- Payments ------------------------------------------------------------------------------------

  /** The request stores a schedule. */
  predicate Stores(s: State, step: Step) {
    || (step.GenerateSchedule? && step.rows.Ok?)
    || (step.ConfigureServicing? && ConfigurationError(s, step.configuration).None? && step.rows.Ok?)
  }

  /** The last payment sent for an entry since its schedule was stored. */
  function LastPayment(states: seq<State>, steps: seq<Step>, i: nat, entry: nat): Option<real>
    requires i <= |steps| && |states| == |steps| + 1
  {
    if i == 0 || Stores(states[i - 1], steps[i - 1]) then None
    else if steps[i - 1].MarkPaid? && steps[i - 1].entry == entry then Some(steps[i - 1].paidAmount)
    else LastPayment(states, steps, i - 1, entry)
  }

  /** The entry is as the last payment left it, however often it was marked overdue since. */
  predicate AsPaid(e: Entry, payment: Option<real>) {
    match payment
    case None => e.status != Paid && e.paidAmount == 0
    case Some(amount) => (e.status == Paid <==> e.row.emiAmount as real <= amount) && e.paidAmount == Stored(amount)
  }

  lemma StepStoresSchedule(s: State, step: Step, k: nat)
    requires Stores(s, step) && k < |Apply(s, step).state.entries|
    ensures AsPaid(Apply(s, step).state.entries[k], None)
  {
  }

  /** Entry k is paid as the request says, if it is a payment on it, and otherwise at most marked overdue. */
  ghost predicate OnEntry(before: seq<Entry>, step: Step, after: seq<Entry>, k: nat) {
    && |after| == |before|
    && (k < |before| ==>
          if step.MarkPaid? && step.entry == k then after[k] == Pay(before[k], step.paidAmount)
          else after[k] == before[k].(status := after[k].status) && (after[k].status == Paid <==> before[k].status == Paid))
  }

  lemma StepOnEntry(s: State, step: Step, k: nat)
    requires !Stores(s, step)
    ensures OnEntry(s.entries, step, Apply(s, step).state.entries, k)
  {
    if !IsServicing(step) {
      Inv.OthersLeaveEntries(s, step);
    } else if SetsUpLoan(step) {
      FailedSetUpKeepsEntries(s, step);
    } else {
      RunningOnEntry(s, step, k);
    }
  }

  lemma FailedSetUpKeepsEntries(s: State, step: Step)
    requires SetsUpLoan(step) && !Stores(s, step)
    ensures Apply(s, step).state.entries == s.entries
  {
  }

  lemma RunningOnEntry(s: State, step: Step, k: nat)
    requires IsServicing(step) && !SetsUpLoan(step)
    ensures OnEntry(s.entries, step, Apply(s, step).state.entries, k)
  {
  }

  /** In any run an entry's paid amount is its last payment as stored, and it is PAID exactly if that
      payment, as it was sent, reached the instalment. Nothing before it counts. */
  lemma {:induction false} LastPaymentDecides(states: seq<State>, steps: seq<Step>, i: nat, k: nat)
    requires Run(states, steps) && i < |states| && k < |states[i].entries|
    ensures AsPaid(states[i].entries[k], LastPayment(states, steps, i, k))
  {
    assert i > 0;
    assert Follows(states, steps, i - 1);
    var s, step := states[i - 1], steps[i - 1];
    if Stores(s, step) {
      StepStoresSchedule(s, step, k);
    } else {
      StepOnEntry(s, step, k);
      LastPaymentDecides(states, steps, i - 1, k);
    }
  }

  /** What the column rounds away: a last payment short by half a paisa at most, or nothing due and nothing paid. */
  predicate RoundedAway(emiAmount: int, payment: Option<real>) {
    match payment
    case None => emiAmount <= 0
    case Some(amount) => ShortByRounding(emiAmount, amount)
  }

  /**
   In any run, PAID and "the stored amount covers the instalment" agree for an entry exactly unless
   its last payment was short by no more than the column rounds away, or none was made on an
   instalment of nothing.
   */
  lemma PaidAgreesExactlyWhen(states: seq<State>, steps: seq<Step>, i: nat, k: nat)
    requires Run(states, steps) && i < |states| && k < |states[i].entries|
    ensures var e := states[i].entries[k];
            (e.status == Paid <==> e.row.emiAmount <= e.paidAmount) <==>
              !RoundedAway(e.row.emiAmount, LastPayment(states, steps, i, k))
  {
    LastPaymentDecides(states, steps, i, k);
    var payment := LastPayment(states, steps, i, k);
    if payment.Some? {
      StoredReaches(states[i].entries[k].row.emiAmount, payment.value);
    }
  }

  predicate WholePayment(step: Step) {
    step.MarkPaid? ==> step.paidAmount == step.paidAmount.Floor as real
  }

  lemma {:induction false} LastPaymentIsWhole(states: seq<State>, steps: seq<Step>, i: nat, k: nat)
    requires i <= |steps| && |states| == |steps| + 1 && forall j :: 0 <= j < i ==> WholePayment(steps[j])
    ensures var p := LastPayment(states, steps, i, k); p.Some? ==> p.value == p.value.Floor as real
  {
    if i > 0 {
      assert WholePayment(steps[i - 1]);
      LastPaymentIsWhole(states, steps, i - 1, k);
    }
  }

  /** So when payments come in whole paisa, they always agree for an instalment of at least one paisa. */
  lemma PaidExactlyWhenCovered(states: seq<State>, steps: seq<Step>, i: nat, k: nat)
    requires Run(states, steps) && i < |states| && k < |states[i].entries|
    requires 0 < states[i].entries[k].row.emiAmount
    requires forall j :: 0 <= j < i ==> WholePayment(steps[j])
    ensures var e := states[i].entries[k]; e.status == Paid <==> e.row.emiAmount <= e.paidAmount
  {
    PaidAgreesExactlyWhen(states, steps, i, k);
    LastPaymentIsWhole(states, steps, i, k);
    var payment := LastPayment(states, steps, i, k);
    if payment.Some? {
      WholeIsNeverShort(states[i].entries[k].row.emiAmount, payment.value.Floor);
    }
  }
}
