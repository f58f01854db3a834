/** What holds of a loan's rows in every reachable state, over all interleavings of requests. */
module LoanInvariants {
  import opened Wrappers
  import opened RealMath
  import opened Calendar
  import opened LoanTerms
  import opened Entries
  import opened LoanState
  import Schedule

  function SumOf(amounts: seq<int>): int {
    if amounts == [] then 0 else SumOf(amounts[..|amounts| - 1]) + amounts[|amounts| - 1]
  }

  predicate NonNegative(amounts: seq<int>) {
    forall i :: 0 <= i < |amounts| ==> 0 <= amounts[i]
  }

  /** Money leaves only under a signed Loan Agreement, and the total is the sum of what left. */
  ghost predicate DisbursementSound(s: State) {
    && (s.conditions != [] || s.tranches != [] ==> SignedLoanAgreement(s))
    && s.figures.totalDisbursedAmount == (if s.tranches == [] then None else Some(SumOf(s.tranches)))
  }

  /** Where an application stands in the approval chain. */
  ghost predicate ApprovalSound(s: State) {
    && (s.stage == Some(Approved) ==> s.account.Some? && s.approverDated)
    && (s.sentBackByApprover ==> s.stage in {Some(SentBack), Some(Rejected)})
  }

  /** How far servicing has got, and that an override never exceeds what was disbursed. */
  ghost predicate ServicingSound(s: State) {
    s.account.Some? ==>
      var a := s.account.value;
      && (a.configured ==> s.tranches != [])
      && (a.borrowerNotified ==> a.configured && s.entries != [])
      && (a.servicing.finalPrincipalAmount.Some? ==> a.configured)
      && (NonNegative(s.tranches) && a.servicing.finalPrincipalAmount.Some? ==>
            a.servicing.finalPrincipalAmount.value <= SumOf(s.tranches))
      && (a.firstDueDate.Some? ==> s.entries != [] && a.firstDueDate.value == s.entries[0].row.dueDate)
  }

  ghost predicate EntriesSound(s: State) {
    forall i :: 0 <= i < |s.entries| ==> Covered(s.entries[i])
  }

  ghost predicate Invariant(s: State) {
    DisbursementSound(s) && ApprovalSound(s) && ServicingSound(s) && EntriesSound(s)
  }

  lemma SumOfSnoc(amounts: seq<int>, amount: int)
    ensures SumOf(amounts + [amount]) == SumOf(amounts) + amount
  {
    assert (amounts + [amount])[..|amounts|] == amounts;
  }

  lemma {:induction false} SumOfNonNegative(amounts: seq<int>)
    requires NonNegative(amounts)
    ensures 0 <= SumOf(amounts)
  {
    if amounts != [] {
      SumOfNonNegative(amounts[..|amounts| - 1]);
    }
  }

  /** Later rows only add to earlier ones: nothing signed, disbursed or opened is ever taken back. */
  ghost predicate Extends(s: State, t: State) {
    AgreementsExtend(s.agreements, t.agreements) && s.tranches <= t.tranches && AccountExtends(s.account, t.account)
  }

  ghost predicate AgreementsExtend(a: seq<Agreement>, b: seq<Agreement>) {
    && |a| <= |b|
    && forall i :: 0 <= i < |a| ==>
         b[i].agreementType == a[i].agreementType && (a[i].status in {Signed, InForce} ==> b[i].status == a[i].status)
  }

  predicate AccountExtends(a: Option<Account>, b: Option<Account>) {
    a.Some? ==> b.Some? && (a.value.status == Cleared ==> b.value.status == Cleared)
  }

  /** Lifts a fact about paperwork requests to all requests, when no other request touches its rows. */
  lemma OthersLeavePaperwork(s: State, step: Step)
    requires IsApproval(step) || IsServicing(step)
    ensures var t := Apply(s, step).state;
            t.agreements == s.agreements && t.conditions == s.conditions && t.tranches == s.tranches
            && t.figures == s.figures
  {
    if IsApproval(step) {
      ApprovalFrame(s, step);
    } else {
      ServicingFrame(s, step);
    }
  }

  lemma StepExtendsAgreements(s: State, step: Step)
    ensures AgreementsExtend(s.agreements, Apply(s, step).state.agreements)
  {
    if IsApproval(step) || IsServicing(step) {
      OthersLeavePaperwork(s, step);
    } else {
      PaperworkExtendsAgreements(s, step);
    }
  }

  predicate OnAgreements(step: Step) {
    step.CreateAgreement? || step.SendToSign? || step.MarkSigned? || step.UploadSigned?
  }

  lemma PaperworkExtendsAgreements(s: State, step: Step)
    requires !IsApproval(step) && !IsServicing(step)
    ensures AgreementsExtend(s.agreements, Apply(s, step).state.agreements)
  {
    if OnAgreements(step) {
      AgreementRequestExtends(s, step);
    } else {
      PaperworkKeepsAgreements(s, step);
    }
  }

  lemma AgreementRequestExtends(s: State, step: Step)
    requires OnAgreements(step)
    ensures AgreementsExtend(s.agreements, Apply(s, step).state.agreements)
  {
  }

  lemma PaperworkKeepsAgreements(s: State, step: Step)
    requires !IsApproval(step) && !IsServicing(step) && !OnAgreements(step)
    ensures Apply(s, step).state.agreements == s.agreements
  {
  }

  lemma StepExtendsTranches(s: State, step: Step)
    ensures s.tranches <= Apply(s, step).state.tranches
  {
    StepPaysOut(s, step);
  }

  lemma StepExtendsAccount(s: State, step: Step)
    ensures AccountExtends(s.account, Apply(s, step).state.account)
  {
    if IsApproval(step) {
      ApprovalExtendsAccount(s, step);
    } else if IsServicing(step) {
      ServicingExtendsAccount(s, step);
    } else {
      PaperworkFrame(s, step);
    }
  }

  lemma ApprovalExtendsAccount(s: State, step: Step)
    requires IsApproval(step)
    ensures AccountExtends(s.account, Apply(s, step).state.account)
  {
  }

  lemma ServicingExtendsAccount(s: State, step: Step)
    requires IsServicing(step)
    ensures AccountExtends(s.account, Apply(s, step).state.account)
  {
    if SetsUpLoan(step) {
      SetUpExtendsAccount(s, step);
    } else {
      RunningExtendsAccount(s, step);
    }
  }

  lemma RunningExtendsAccount(s: State, step: Step)
    requires IsServicing(step) && !SetsUpLoan(step)
    ensures AccountExtends(s.account, Apply(s, step).state.account)
  {
  }

  lemma SetUpExtendsAccount(s: State, step: Step)
    requires SetsUpLoan(step)
    ensures AccountExtends(s.account, Apply(s, step).state.account)
  {
    match step
    case GenerateSchedule(rows) => GenerateExtendsAccount(s, rows);
    case ConfigureServicing(c, rows) =>
      if ConfigurationError(s, c).None? {
        GenerateExtendsAccount(WithConfiguration(s, c), rows);
      }
    case _ =>
  }

  lemma GenerateExtendsAccount(s: State, rows: Rows)
    ensures AccountExtends(s.account, DoGenerate(s, rows).state.account)
  {
  }

  lemma StepExtends(s: State, step: Step)
    ensures Extends(s, Apply(s, step).state)
  {
    StepExtendsAgreements(s, step);
    StepExtendsTranches(s, step);
    StepExtendsAccount(s, step);
  }

  lemma SignedStaysSigned(s: State, t: State)
    requires Extends(s, t) && SignedLoanAgreement(s)
    ensures SignedLoanAgreement(t)
  {
    var i :| 0 <= i < |s.agreements| && s.agreements[i].agreementType == LoanAgreement
             && s.agreements[i].status in {Signed, InForce};
    assert t.agreements[i].agreementType == LoanAgreement;
  }

  lemma StepNeedsSignature(s: State, step: Step)
    requires s.conditions == [] && !SignedLoanAgreement(s)
    ensures var t := Apply(s, step).state; t.conditions == [] && t.tranches == s.tranches
  {
    if IsApproval(step) || IsServicing(step) {
      OthersLeavePaperwork(s, step);
    } else {
      PaperworkNeedsSignature(s, step);
    }
  }

  lemma PaperworkNeedsSignature(s: State, step: Step)
    requires !IsApproval(step) && !IsServicing(step)
    requires s.conditions == [] && !SignedLoanAgreement(s)
    ensures var t := Apply(s, step).state; t.conditions == [] && t.tranches == s.tranches
  {
  }

  /** The disbursed total moves with the tranches and with nothing else. */
  predicate PaysOut(s: State, t: State) {
    var before, after := s.figures.totalDisbursedAmount, t.figures.totalDisbursedAmount;
    if |t.tranches| == |s.tranches| then
      t.tranches == s.tranches && after == before
    else
      && |t.tranches| == |s.tranches| + 1 && t.tranches[..|s.tranches|] == s.tranches
      && after == Some(before.GetOr(0) + t.tranches[|s.tranches|])
  }

  lemma StepPaysOut(s: State, step: Step)
    ensures PaysOut(s, Apply(s, step).state)
  {
    if IsApproval(step) || IsServicing(step) {
      OthersLeavePaperwork(s, step);
    } else {
      PaperworkPaysOut(s, step);
    }
  }

  lemma PaperworkPaysOut(s: State, step: Step)
    requires !IsApproval(step) && !IsServicing(step)
    ensures PaysOut(s, Apply(s, step).state)
  {
  }

  lemma StepKeepsDisbursement(s: State, step: Step)
    requires DisbursementSound(s)
    ensures DisbursementSound(Apply(s, step).state)
  {
    var t := Apply(s, step).state;
    StepPaysOut(s, step);
    StepExtends(s, step);
    TotalsCarryOver(s, t);
    if SignedLoanAgreement(s) {
      SignedStaysSigned(s, t);
    } else {
      StepNeedsSignature(s, step);
    }
  }

  lemma TotalsCarryOver(s: State, t: State)
    requires DisbursementSound(s) && PaysOut(s, t)
    ensures t.figures.totalDisbursedAmount == (if t.tranches == [] then None else Some(SumOf(t.tranches)))
  {
    if |t.tranches| != |s.tranches| {
      assert t.tranches[..|t.tranches| - 1] == s.tranches;
    }
  }

  lemma StepKeepsApproval(s: State, step: Step)
    requires ApprovalSound(s)
    ensures ApprovalSound(Apply(s, step).state)
  {
    if IsApproval(step) {
      ApprovalKeepsApproval(s, step);
    } else if IsServicing(step) {
      ServicingFrame(s, step);
      StepExtendsAccount(s, step);
    } else {
      PaperworkKeepsApproval(s, step);
    }
  }

  lemma ApprovalKeepsApproval(s: State, step: Step)
    requires IsApproval(step) && ApprovalSound(s)
    ensures ApprovalSound(Apply(s, step).state)
  {
  }

  lemma PaperworkKeepsApproval(s: State, step: Step)
    requires !IsApproval(step) && !IsServicing(step) && ApprovalSound(s)
    ensures ApprovalSound(Apply(s, step).state)
  {
  }

  lemma OthersLeaveEntries(s: State, step: Step)
    requires !IsServicing(step)
    ensures Apply(s, step).state.entries == s.entries
  {
    if IsApproval(step) {
      ApprovalFrame(s, step);
    } else {
      PaperworkFrame(s, step);
    }
  }

  lemma StepKeepsEntries(s: State, step: Step)
    requires EntriesSound(s)
    ensures EntriesSound(Apply(s, step).state)
  {
    if IsServicing(step) {
      ServicingKeepsEntries(s, step);
    } else {
      OthersLeaveEntries(s, step);
    }
  }

  lemma ServicingKeepsEntries(s: State, step: Step)
    requires IsServicing(step) && EntriesSound(s)
    ensures EntriesSound(Apply(s, step).state)
  {
    if step.MarkPaid? && step.entry < |s.entries| {
      PayKeepsCovered(s.entries[step.entry], step.paidAmount);
    }
  }

  lemma ComputedIsNotEmpty(figures: Figures, account: Option<Servicing>, rows: Rows)
    requires Computed(figures, account, rows)
    ensures rows.Ok? ==> rows.value != []
  {
    var now, root :| Schedule.RootFor(Effective(figures, account), root)
                     && rows == Schedule.Generated(figures, account, now, root);
    var t := Effective(figures, account);
    if Schedule.Check(t).None? {
      var p := Schedule.PlanFor(t, root, Schedule.StartDate(account, now));
      assert |Schedule.Rows(p)| == p.count;
    }
  }

  lemma GenerateKeepsServicing(s: State, rows: Rows)
    requires ServicingSound(s) && (rows.Ok? ==> rows.value != [])
    ensures ServicingSound(DoGenerate(s, rows).state)
  {
  }

  lemma ConfigurationKeepsServicing(s: State, c: Configuration)
    requires DisbursementSound(s) && ServicingSound(s) && ConfigurationError(s, c).None?
    ensures ServicingSound(WithConfiguration(s, c))
  {
    if c.finalPrincipalAmount.Value? {
      var disbursed := s.figures.totalDisbursedAmount.GetOr(0);
      StoredIsMonotone(c.finalPrincipalAmount.value, disbursed as real);
      StoredKeepsWhole(disbursed);
    }
  }

  lemma ConfigureKeepsServicing(s: State, c: Configuration, rows: Rows)
    requires DisbursementSound(s) && ServicingSound(s)
    requires ConfigurationError(s, c).None? && rows.Ok? ==> rows.value != []
    ensures ServicingSound(DoConfigure(s, c, rows).state)
  {
    if ConfigurationError(s, c).None? {
      ConfigurationKeepsServicing(s, c);
      GenerateKeepsServicing(WithConfiguration(s, c), rows);
    }
  }

  lemma ConfirmKeepsServicing(s: State, amount: int)
    requires DisbursementSound(s) && ServicingSound(s)
    ensures ServicingSound(DoConfirm(s, amount).state)
  {
    var tranches := s.tranches + [amount];
    SumOfSnoc(s.tranches, amount);
    assert tranches[|s.tranches|] == amount;
    assert NonNegative(tranches) ==> NonNegative(s.tranches) by {
      assert forall i :: 0 <= i < |s.tranches| ==> s.tranches[i] == tranches[i];
    }
  }

  /** A schedule that a request stores has at least one row. */
  predicate StoresRows(s: State, step: Step) {
    match step
    case GenerateSchedule(rows) => rows.Ok? ==> rows.value != []
    case ConfigureServicing(c, rows) => ConfigurationError(s, c).None? && rows.Ok? ==> rows.value != []
    case _ => true
  }

  lemma AdmissibleStoresRows(s: State, step: Step)
    requires Admissible(s, step)
    ensures StoresRows(s, step)
  {
    match step
    case GenerateSchedule(rows) => ComputedIsNotEmpty(s.figures, ServicingOf(s), rows);
    case ConfigureServicing(c, rows) =>
      if ConfigurationError(s, c).None? {
        ComputedIsNotEmpty(s.figures, ServicingOf(WithConfiguration(s, c)), rows);
      }
    case _ =>
  }

  lemma StepKeepsServicing(s: State, step: Step)
    requires DisbursementSound(s) && ServicingSound(s) && StoresRows(s, step)
    ensures ServicingSound(Apply(s, step).state)
  {
    if IsApproval(step) {
      ApprovalKeepsServicing(s, step);
    } else if IsServicing(step) {
      ServicingKeepsServicing(s, step);
    } else if step.ConfirmDisbursement? {
      ConfirmKeepsServicing(s, step.amount);
    } else {
      PaperworkFrame(s, step);
      StepPaysOut(s, step);
      PaperworkPaysNothing(s, step);
    }
  }

  lemma PaperworkPaysNothing(s: State, step: Step)
    requires !IsApproval(step) && !IsServicing(step) && !step.ConfirmDisbursement?
    ensures Apply(s, step).state.tranches == s.tranches
  {
  }

  lemma ApprovalKeepsServicing(s: State, step: Step)
    requires IsApproval(step) && ServicingSound(s)
    ensures ServicingSound(Apply(s, step).state)
  {
    ApprovalFrame(s, step);
  }

  lemma ServicingKeepsServicing(s: State, step: Step)
    requires IsServicing(step) && DisbursementSound(s) && ServicingSound(s) && StoresRows(s, step)
    ensures ServicingSound(Apply(s, step).state)
  {
    match step
    case GenerateSchedule(rows) => GenerateKeepsServicing(s, rows);
    case ConfigureServicing(c, rows) => ConfigureKeepsServicing(s, c, rows);
    case _ => RestKeepsServicing(s, step);
  }

  lemma RestKeepsServicing(s: State, step: Step)
    requires IsServicing(step) && !step.GenerateSchedule? && !step.ConfigureServicing? && ServicingSound(s)
    ensures ServicingSound(Apply(s, step).state)
  {
  }

  lemma StepKeepsInvariant(s: State, step: Step)
    requires Admissible(s, step) && Invariant(s)
    ensures Invariant(Apply(s, step).state)
  {
    AdmissibleStoresRows(s, step);
    StepKeepsDisbursement(s, step);
    StepKeepsApproval(s, step);
    StepKeepsServicing(s, step);
    StepKeepsEntries(s, step);
  }

  /** The invariant holds in every reachable state. */
  lemma {:induction false} InvariantAlways(states: seq<State>, steps: seq<Step>, i: nat)
    requires Run(states, steps) && i < |states|
    ensures Invariant(states[i])
  {
    if i > 0 {
      InvariantAlways(states, steps, i - 1);
      assert Follows(states, steps, i - 1);
      StepKeepsInvariant(states[i - 1], steps[i - 1]);
    }
  }

  // ---- Consequences in reachable states ---------------------------------------------------

  /** Approve succeeded among the first i requests. */
  ghost predicate EverApproved(states: seq<State>, steps: seq<Step>, i: nat)
    requires i <= |steps| && |states| == |steps| + 1
  {
    exists k :: 0 <= k < i && ApprovesAt(states, steps, k)
  }

  predicate ApprovesAt(states: seq<State>, steps: seq<Step>, k: nat)
    requires k < |steps| && |states| == |steps| + 1
  {
    steps[k] == Approve && Succeeded(states, steps, k)
  }

  lemma StepOpensAccount(s: State, step: Step)
    requires s.account.None?
    ensures Apply(s, step).state.account.Some? <==> step == Approve && Apply(s, step).error.None?
  {
    if IsApproval(step) {
    } else if IsServicing(step) {
      ServicingOpensNothing(s, step);
    } else {
      PaperworkFrame(s, step);
    }
  }

  lemma ServicingOpensNothing(s: State, step: Step)
    requires IsServicing(step) && s.account.None?
    ensures Apply(s, step).state.account.None?
  {
  }

  /** In every run a loan account exists exactly if some earlier approve succeeded. */
  lemma {:induction false} AccountMeansApproved(states: seq<State>, steps: seq<Step>, i: nat)
    requires Run(states, steps) && i < |states|
    ensures states[i].account.Some? <==> EverApproved(states, steps, i)
  {
    if i > 0 {
      AccountMeansApproved(states, steps, i - 1);
      assert Follows(states, steps, i - 1);
      var s, step := states[i - 1], steps[i - 1];
      if s.account.Some? {
        StepExtendsAccount(s, step);
        var k :| 0 <= k < i - 1 && ApprovesAt(states, steps, k);
        assert 0 <= k < i && ApprovesAt(states, steps, k);
      } else {
        StepOpensAccount(s, step);
        assert states[i].account.Some? <==> ApprovesAt(states, steps, i - 1);
      }
    }
  }

  /** A configured loan was approved, has paid out a tranche, and has its agreement signed; a notified one is configured. */
  lemma ConfiguredMeansDisbursed(states: seq<State>, steps: seq<Step>, i: nat)
    requires Run(states, steps) && i < |states|
    ensures var s := states[i];
            && (s.account.Some? && s.account.value.configured ==>
                  EverApproved(states, steps, i) && s.tranches != [] && SignedLoanAgreement(s))
            && (s.account.Some? && s.account.value.borrowerNotified ==>
                  s.account.value.configured && s.entries != [])
  {
    InvariantAlways(states, steps, i);
    AccountMeansApproved(states, steps, i);
  }

  /** Once money is out, and none was booked negatively, no schedule ever repays more principal than was disbursed. */
  lemma ScheduleWithinDisbursement(states: seq<State>, steps: seq<Step>, i: nat, rows: Rows)
    requires Run(states, steps) && i < |states|
    requires var s := states[i];
             Computed(s.figures, ServicingOf(s), rows) && s.tranches != [] && NonNegative(s.tranches)
    ensures rows.Ok? ==> Schedule.TotalPrincipal(rows.value, |rows.value|) <= SumOf(states[i].tranches)
  {
    var s := states[i];
    InvariantAlways(states, steps, i);
    assert FinalPrincipal(s.figures, ServicingOf(s)) <= SumOf(s.tranches);
    ComputedRepaysPrincipal(s.figures, ServicingOf(s), rows);
  }

  lemma ComputedRepaysPrincipal(figures: Figures, account: Option<Servicing>, rows: Rows)
    requires Computed(figures, account, rows)
    ensures rows.Ok? ==> Schedule.TotalPrincipal(rows.value, |rows.value|) == FinalPrincipal(figures, account)
  {
    var now, root :| Schedule.RootFor(Effective(figures, account), root)
                     && rows == Schedule.Generated(figures, account, now, root);
    var t := Effective(figures, account);
    if Schedule.Check(t).None? {
      var p := Schedule.PlanFor(t, root, Schedule.StartDate(account, now));
      Schedule.PrincipalIsRepaidExactly(p);
    }
  }

  lemma {:induction false} NothingIsTakenBack(states: seq<State>, steps: seq<Step>, i: nat, j: nat)
    requires Run(states, steps) && i <= j < |states|
    ensures Extends(states[i], states[j])
    decreases j
  {
    if i < j {
      NothingIsTakenBack(states, steps, i, j - 1);
      assert Follows(states, steps, j - 1);
      StepExtends(states[j - 1], steps[j - 1]);
      ExtendsComposes(states[i], states[j - 1], states[j]);
    }
  }

  lemma ExtendsComposes(s: State, t: State, u: State)
    requires Extends(s, t) && Extends(t, u)
    ensures Extends(s, u)
  {
    forall i | 0 <= i < |s.agreements|
      ensures u.agreements[i].agreementType == s.agreements[i].agreementType
      ensures s.agreements[i].status in {Signed, InForce} ==> u.agreements[i].status == s.agreements[i].status
    {
      assert t.agreements[i].agreementType == s.agreements[i].agreementType;
    }
  }

  predicate IsCleared(s: State) {
    s.account.Some? && s.account.value.status == Cleared
  }

  /** A request clears a loan only when every instalment is then paid, so nothing is left outstanding. */
  lemma ClearedOnlyWhenPaid(states: seq<State>, steps: seq<Step>, i: nat)
    requires Run(states, steps) && i < |steps|
    requires !IsCleared(states[i]) && IsCleared(states[i + 1])
    ensures AllPaid(states[i + 1].entries) && OutstandingBalance(states[i + 1].entries) == 0
  {
    assert Follows(states, steps, i);
    StepClears(states[i], steps[i]);
    InvariantAlways(states, steps, i + 1);
    PaidTotalsCover(states[i + 1].entries);
  }

  lemma StepClears(s: State, step: Step)
    requires !IsCleared(s) && IsCleared(Apply(s, step).state)
    ensures AllPaid(Apply(s, step).state.entries)
  {
    if IsApproval(step) {
      ApprovalClearsNothing(s, step);
    } else if IsServicing(step) {
      ServicingClears(s, step);
    } else {
      PaperworkFrame(s, step);
    }
  }

  lemma ApprovalClearsNothing(s: State, step: Step)
    requires IsApproval(step) && !IsCleared(s)
    ensures !IsCleared(Apply(s, step).state)
  {
  }

  lemma ServicingClears(s: State, step: Step)
    requires IsServicing(step) && !IsCleared(s) && IsCleared(Apply(s, step).state)
    ensures AllPaid(Apply(s, step).state.entries)
  {
  }

  /** No request ever leaves CLEARED. */
  lemma ClearedIsFinal(states: seq<State>, steps: seq<Step>, i: nat, j: nat)
    requires Run(states, steps) && i <= j < |states| && IsCleared(states[i])
    ensures IsCleared(states[j])
  {
    NothingIsTakenBack(states, steps, i, j);
  }
}
