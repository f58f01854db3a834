/**
 One loan application and every row that hangs off it, with the operations of the approval,
 documents, disbursement and repayment services as steps over those rows. Each request is one
 step; a step may change rows and still end in an error, where the original does.
 */
module LoanState {
  import opened Wrappers
  import opened RealMath
  import opened Calendar
  import opened LoanTerms
  import opened Entries
  import Schedule

  datatype Stage = Initiated | Supported | Checking | Approved | Rejected | SentBack

  datatype Role = Initiator | Supporter | Checker | Approver | CreditManager | Admin | Outsider

  datatype AccountStatus = Active | Cleared | NeedsReview

  datatype Account = Account(
    status: AccountStatus,
    servicing: Servicing,
    configured: bool, // configuredAt is set
    borrowerNotified: bool, // borrowerNotifiedAt is set
    firstDueDate: Option<int>,
    reviewAssignedRole: Option<Role>)

  datatype AgreementType = LoanAgreement | GuaranteeDeed | Hypothecation | PromissoryNote

  datatype AgreementStatus = Draft | PendingSignature | Signed | InForce

  datatype Agreement = Agreement(agreementType: AgreementType, status: AgreementStatus)

  datatype ConditionStatus = Pending | Done | Missing

  datatype State = State(
    stage: Option<Stage>,
    sentBackToStage: Option<Stage>,
    sentBackByApprover: bool,
    approverDated: bool, // approverDate is set
    figures: Figures, // totalDisbursedAmount is the disbursement row's, None without one
    parentBankAccount: bool,
    account: Option<Account>,
    agreements: seq<Agreement>,
    conditions: seq<ConditionStatus>,
    tranches: seq<int>,
    entries: seq<Entry>)

  datatype Error =
    | WrongStage
    | NotSentBackToInitiator
    | AccountExists
    | NotFound
    | WrongAgreementStatus
    | NoSignedAgreement
    | NoBankAccount
    | ConditionsPending
    | ScheduleError(failure: Schedule.Failure)
    | AlreadyCleared
    | NotDisbursed
    | OverrideTooLarge
    | NotNullable
    | PastInitiator
    | NotConfigured
    | NoSchedule
    | NotUnderReview
    | NotReviewer
    | UnpaidInstalments

  type Rows = Result<seq<Schedule.Row>, Schedule.Failure>

  datatype Outcome = Outcome(state: State, error: Option<Error>)

  /** The body of a configureServicing request; what it leaves out stays as it is, a null clears it. */
  datatype Configuration = Configuration(
    finalPrincipalAmount: Given<real>,
    finalInterestRate: Given<real>,
    finalTenureMonths: Given<int>,
    repaymentFrequency: Given<Frequency>,
    interestFrequency: Given<Frequency>,
    gracePeriodMonths: Given<int>,
    emiStartDate: Given<CivilTime>)

  datatype Step =
    | Support
    | Check
    | Approve
    | Reject
    | SendBack(role: Role, toStage: Option<Stage>)
    | Resubmit
    | EditApproverDate(dated: bool)
    | EditFigures(figures: Figures)
    | SetParentBankAccount(present: bool)
    | CreateAgreement(agreementType: AgreementType)
    | SendToSign(agreement: nat)
    | MarkSigned(agreement: nat)
    | UploadSigned(agreement: nat)
    | AddCondition
    | UpdateCondition(condition: nat, status: ConditionStatus)
    | ConfirmDisbursement(amount: int)
    | GenerateSchedule(rows: Rows)
    | ConfigureServicing(configuration: Configuration, rows: Rows)
    | NotifyBorrower
    | FlagNeedsReview(assignTo: Option<Role>)
    | ResolveReview(role: Role)
    | CompleteClearance
    | MarkPaid(entry: nat, paidAmount: real)
    | MarkOverdueEntries(startOfToday: int)

  const NEW_SERVICING := Servicing(None, None, None, Monthly, None, 0, None)
  const NEW_ACCOUNT := Account(Active, NEW_SERVICING, false, false, None, None)

  ghost predicate Initial(s: State) {
    && s.stage in {None, Some(Initiated)}
    && !s.sentBackByApprover && !s.approverDated
    && s.figures.totalDisbursedAmount.None? && s.account.None?
    && s.agreements == [] && s.conditions == [] && s.tranches == [] && s.entries == []
  }

  function Fail(s: State, error: Error): Outcome {
    Outcome(s, Some(error))
  }

  function Succeed(s: State): Outcome {
    Outcome(s, None)
  }

  // ---- Approval ---------------------------------------------------------------------------

  function DoSupport(s: State): Outcome {
    if s.stage !in {None, Some(Initiated), Some(SentBack)} then Fail(s, WrongStage)
    else Succeed(s.(stage := Some(if s.sentBackByApprover then Checking else Supported), sentBackByApprover := false))
  }

  function DoCheck(s: State): Outcome {
    if s.stage !in {Some(Supported), Some(SentBack)} then Fail(s, WrongStage)
    else Succeed(s.(stage := Some(Checking), sentBackByApprover := false))
  }

  /** Approval creates the loan account in the same transaction; a second account violates the unique key and rolls back. */
  function DoApprove(s: State): Outcome {
    if s.stage != Some(Checking) then Fail(s, WrongStage)
    else if s.account.Some? then Fail(s, AccountExists)
    else Succeed(s.(stage := Some(Approved), approverDated := true, account := Some(NEW_ACCOUNT)))
  }

  function DoReject(s: State): Outcome {
    Succeed(s.(stage := Some(Rejected)))
  }

  function DoSendBack(s: State, role: Role, toStage: Option<Stage>): Outcome {
    Succeed(s.(stage := Some(SentBack), sentBackToStage := Some(toStage.GetOr(Initiated)),
             sentBackByApprover := role == Approver))
  }

  function DoResubmit(s: State): Outcome {
    if s.stage != Some(SentBack) || s.sentBackToStage != Some(Initiated) then Fail(s, NotSentBackToInitiator)
    else Succeed(s.(stage := Some(if s.sentBackByApprover then Checking else Supported), sentBackByApprover := false))
  }

  // ---- The Initiator's edits -----------------------------------------------------------------

  /** assertInitiatorCanEdit, read off the application row. */
  predicate InitiatorCanEdit(s: State) {
    s.stage in {None, Some(Initiated)} || (s.stage == Some(SentBack) && s.sentBackToStage == Some(Initiated))
  }

  /** The Initiator's form has a field for the Approver's date, which may also be cleared. */
  function DoEditApproverDate(s: State, dated: bool): Outcome {
    if !InitiatorCanEdit(s) then Fail(s, PastInitiator) else Succeed(s.(approverDated := dated))
  }

  // ---- Agreements -----------------------------------------------------------------------------

  predicate SignedLoanAgreement(s: State) {
    exists i :: 0 <= i < |s.agreements| && s.agreements[i].agreementType == LoanAgreement
                && s.agreements[i].status in {Signed, InForce}
  }

  function SetAgreement(s: State, i: nat, status: AgreementStatus): State
    requires i < |s.agreements|
  {
    s.(agreements := s.agreements[i := s.agreements[i].(status := status)])
  }

  function DoSendToSign(s: State, i: nat): Outcome {
    if |s.agreements| <= i then Fail(s, NotFound)
    else if s.agreements[i].status != Draft then Fail(s, WrongAgreementStatus)
    else Succeed(SetAgreement(s, i, PendingSignature))
  }

  function DoMarkSigned(s: State, i: nat): Outcome {
    if |s.agreements| <= i then Fail(s, NotFound)
    else if s.agreements[i].status != PendingSignature then Fail(s, WrongAgreementStatus)
    else Succeed(SetAgreement(s, i, Signed))
  }

  function DoUploadSigned(s: State, i: nat): Outcome {
    if |s.agreements| <= i then Fail(s, NotFound)
    else if s.agreements[i].status in {Signed, InForce} then Fail(s, WrongAgreementStatus)
    else Succeed(SetAgreement(s, i, Signed))
  }

  // ---- Disbursement -----------------------------------------------------------------------------

  function DoAddCondition(s: State): Outcome {
    if !SignedLoanAgreement(s) then Fail(s, NoSignedAgreement)
    else Succeed(s.(conditions := s.conditions + [Pending]))
  }

  function DoUpdateCondition(s: State, i: nat, status: ConditionStatus): Outcome {
    if |s.conditions| <= i then Fail(s, NotFound)
    else if !SignedLoanAgreement(s) then Fail(s, NoSignedAgreement)
    else Succeed(s.(conditions := s.conditions[i := status]))
  }

  predicate AllDone(conditions: seq<ConditionStatus>) {
    forall i :: 0 <= i < |conditions| ==> conditions[i] == Done
  }

  function DoConfirm(s: State, amount: int): Outcome {
    if !s.parentBankAccount then Fail(s, NoBankAccount)
    else if !SignedLoanAgreement(s) then Fail(s, NoSignedAgreement)
    else if !AllDone(s.conditions) then Fail(s, ConditionsPending)
    else Succeed(s.(figures := s.figures.(totalDisbursedAmount := Some(s.figures.totalDisbursedAmount.GetOr(0) + amount)),
                  tranches := s.tranches + [amount]))
  }

  // ---- Servicing ------------------------------------------------------------------------------------

  function ServicingOf(s: State): Option<Servicing> {
    if s.account.Some? then Some(s.account.value.servicing) else None
  }

  /**
   What the amortisation engine returns for these rows at some time of day, given that Math.pow
   returns the root it is asked for.
   */
  ghost predicate Computed(figures: Figures, account: Option<Servicing>, rows: Rows) {
    exists now, root :: Schedule.RootFor(Effective(figures, account), root)
                        && rows == Schedule.Generated(figures, account, now, root)
  }

  /** Replaces any earlier schedule and, with an account, records its first due date. */
  function DoGenerate(s: State, rows: Rows): Outcome {
    if rows.Err? then Fail(s, ScheduleError(rows.error)) else Succeed(WithSchedule(s, rows.value))
  }

  function WithSchedule(s: State, rows: seq<Schedule.Row>): State {
    s.(entries := FreshAll(rows),
       account := if s.account.None? then None
                  else Some(s.account.value.(firstDueDate :=
                    if rows == [] then s.account.value.firstDueDate else Some(rows[0].dueDate))))
  }

  /** An amount of money as its column will hold it. */
  function GivenAmount(given: Given<real>): Given<int> {
    match given
    case Omitted => Omitted
    case Null => Null
    case Value(amount) => Value(Stored(amount))
  }

  function GivenPercent(given: Given<real>): Given<real> {
    if given.Value? then Value(StoredPercent(given.value)) else given
  }

  /** A null start date is ignored; nulls for the two columns that must not be null never get here. */
  function Configured(a: Account, c: Configuration): Account {
    var v := a.servicing;
    a.(configured := true,
       servicing := Servicing(
         GivenAmount(c.finalPrincipalAmount).Over(v.finalPrincipalAmount),
         GivenPercent(c.finalInterestRate).Over(v.finalInterestRate),
         c.finalTenureMonths.Over(v.finalTenureMonths),
         if c.repaymentFrequency.Value? then c.repaymentFrequency.value else v.repaymentFrequency,
         c.interestFrequency.Over(v.interestFrequency),
         if c.gracePeriodMonths.Value? then c.gracePeriodMonths.value else v.gracePeriodMonths,
         if c.emiStartDate.Value? then Some(c.emiStartDate.value) else v.emiStartDate))
  }

  function ConfigurationError(s: State, c: Configuration): Option<Error> {
    var disbursed := s.figures.totalDisbursedAmount.GetOr(0);
    if s.account.None? then Some(NotFound)
    else if s.account.value.status == Cleared then Some(AlreadyCleared)
    else if disbursed <= 0 then Some(NotDisbursed)
    else if c.finalPrincipalAmount.Value? && disbursed as real < c.finalPrincipalAmount.value then Some(OverrideTooLarge)
    else if c.repaymentFrequency.Null? || c.gracePeriodMonths.Null? then Some(NotNullable)
    else None
  }

  function WithConfiguration(s: State, c: Configuration): State
    requires s.account.Some?
  {
    s.(account := Some(Configured(s.account.value, c)))
  }

  /**
   The account columns are written first; only then is the schedule regenerated and the borrower
   notified, so bad terms leave a configured account behind the error.
   */
  function DoConfigure(s: State, c: Configuration, rows: Rows): Outcome {
    var error := ConfigurationError(s, c);
    if error.Some? then Fail(s, error.value) else
    var generated := DoGenerate(WithConfiguration(s, c), rows);
    if generated.error.Some? then generated else DoNotify(generated.state)
  }

  function DoNotify(s: State): Outcome {
    if s.account.None? || !s.account.value.configured then Fail(s, NotConfigured)
    else if s.entries == [] then Fail(s, NoSchedule)
    else Succeed(s.(account := Some(s.account.value.(borrowerNotified := true))))
  }

  // ---- Review and clearance ---------------------------------------------------------------------------

  function DoFlag(s: State, assignTo: Option<Role>): Outcome {
    if s.account.None? then Fail(s, NotFound)
    else if s.account.value.status == Cleared then Fail(s, AlreadyCleared)
    else Succeed(s.(account := Some(s.account.value.(status := NeedsReview, reviewAssignedRole := assignTo))))
  }

  function DoResolve(s: State, role: Role): Outcome {
    if s.account.None? then Fail(s, NotFound)
    else if s.account.value.status != NeedsReview then Fail(s, NotUnderReview)
    else if role !in {CreditManager, Admin} && s.account.value.reviewAssignedRole != Some(role) then Fail(s, NotReviewer)
    else Succeed(s.(account := Some(s.account.value.(status := Active))))
  }

  function DoClear(s: State): Outcome {
    if s.account.None? then Fail(s, NotFound)
    else if s.account.value.status == Cleared then Fail(s, AlreadyCleared)
    else if !AllPaid(s.entries) then Fail(s, UnpaidInstalments)
    else Succeed(s.(account := Some(s.account.value.(status := Cleared))))
  }

  // ---- Payments ---------------------------------------------------------------------------------------------

  /** A full payment that leaves nothing unpaid clears an ACTIVE account. */
  function DoPay(s: State, i: nat, amount: real): Outcome {
    if |s.entries| <= i then Fail(s, NotFound) else
    var entries := s.entries[i := Pay(s.entries[i], amount)];
    var clears := entries[i].status == Paid && AllPaid(entries) && s.account.Some? && s.account.value.status == Active;
    Succeed(s.(entries := entries,
             account := if clears then Some(s.account.value.(status := Cleared)) else s.account))
  }

  function OverdueAll(entries: seq<Entry>, startOfToday: int): seq<Entry> {
    seq(|entries|, i requires 0 <= i < |entries| => MarkOverdue(entries[i], startOfToday))
  }

  // ---- Steps and runs -----------------------------------------------------------------------------------------

  /** A request that regenerates the schedule carries what the amortisation engine computed for it. */
  ghost predicate Admissible(s: State, step: Step) {
    match step
    case GenerateSchedule(rows) => Computed(s.figures, ServicingOf(s), rows)
    case ConfigureServicing(c, rows) =>
      ConfigurationError(s, c).None? ==> Computed(s.figures, ServicingOf(WithConfiguration(s, c)), rows)
    case _ => true
  }

  function Apply(s: State, step: Step): Outcome
  {
    match step
    case Support => DoSupport(s)
    case Check => DoCheck(s)
    case Approve => DoApprove(s)
    case Reject => DoReject(s)
    case SendBack(role, toStage) => DoSendBack(s, role, toStage)
    case Resubmit => DoResubmit(s)
    case EditApproverDate(dated) => DoEditApproverDate(s, dated)
    case EditFigures(f) => Succeed(s.(figures := f.(totalDisbursedAmount := s.figures.totalDisbursedAmount)))
    case SetParentBankAccount(present) => Succeed(s.(parentBankAccount := present))
    case CreateAgreement(t) => Succeed(s.(agreements := s.agreements + [Agreement(t, Draft)]))
    case SendToSign(i) => DoSendToSign(s, i)
    case MarkSigned(i) => DoMarkSigned(s, i)
    case UploadSigned(i) => DoUploadSigned(s, i)
    case AddCondition => DoAddCondition(s)
    case UpdateCondition(i, status) => DoUpdateCondition(s, i, status)
    case ConfirmDisbursement(amount) => DoConfirm(s, amount)
    case GenerateSchedule(rows) => DoGenerate(s, rows)
    case ConfigureServicing(c, rows) => DoConfigure(s, c, rows)
    case NotifyBorrower => DoNotify(s)
    case FlagNeedsReview(assignTo) => DoFlag(s, assignTo)
    case ResolveReview(role) => DoResolve(s, role)
    case CompleteClearance => DoClear(s)
    case MarkPaid(i, amount) => DoPay(s, i, amount)
    case MarkOverdueEntries(today) => Succeed(s.(entries := OverdueAll(s.entries, today)))
  }

  /** Requests that move an application along the approval chain. */
  predicate IsApproval(step: Step) {
    || step.Support? || step.Check? || step.Approve? || step.Reject? || step.SendBack? || step.Resubmit?
  }

  /** Requests about the loan account, its schedule and its payments. */
  predicate IsServicing(step: Step) {
    || step.GenerateSchedule? || step.ConfigureServicing? || step.NotifyBorrower? || step.FlagNeedsReview?
    || step.ResolveReview? || step.CompleteClearance? || step.MarkPaid? || step.MarkOverdueEntries?
  }

  // What each of the three groups of requests leaves alone.

  lemma ApprovalFrame(s: State, step: Step)
    requires IsApproval(step)
    ensures var t := Apply(s, step).state;
            t == s.(stage := t.stage, sentBackToStage := t.sentBackToStage, sentBackByApprover := t.sentBackByApprover,
                    approverDated := t.approverDated, account := t.account)
  {
  }

  lemma ServicingFrame(s: State, step: Step)
    requires IsServicing(step)
    ensures var t := Apply(s, step).state; t == s.(account := t.account, entries := t.entries)
  {
    if SetsUpLoan(step) {
      SetUpFrame(s, step);
    } else {
      RunningFrame(s, step);
    }
  }

  predicate SetsUpLoan(step: Step) {
    step.GenerateSchedule? || step.ConfigureServicing? || step.NotifyBorrower?
  }

  lemma GenerateFrame(s: State, rows: Rows)
    ensures var t := DoGenerate(s, rows).state; t == s.(account := t.account, entries := t.entries)
  {
  }

  lemma NotifyFrame(s: State)
    ensures var t := DoNotify(s).state; t == s.(account := t.account)
  {
  }

  lemma ConfigureFrame(s: State, c: Configuration, rows: Rows)
    ensures var t := DoConfigure(s, c, rows).state; t == s.(account := t.account, entries := t.entries)
  {
    if ConfigurationError(s, c).None? {
      GenerateFrame(WithConfiguration(s, c), rows);
      NotifyFrame(DoGenerate(WithConfiguration(s, c), rows).state);
    }
  }

  lemma SetUpFrame(s: State, step: Step)
    requires SetsUpLoan(step)
    ensures var t := Apply(s, step).state; t == s.(account := t.account, entries := t.entries)
  {
    match step
    case GenerateSchedule(rows) => GenerateFrame(s, rows);
    case ConfigureServicing(c, rows) => ConfigureFrame(s, c, rows);
    case NotifyBorrower => NotifyFrame(s);
  }

  lemma RunningFrame(s: State, step: Step)
    requires IsServicing(step) && !SetsUpLoan(step)
    ensures var t := Apply(s, step).state; t == s.(account := t.account, entries := t.entries)
  {
  }

  lemma PaperworkFrame(s: State, step: Step)
    requires !IsApproval(step) && !IsServicing(step)
    ensures var t := Apply(s, step).state;
            t == s.(approverDated := t.approverDated, figures := t.figures, parentBankAccount := t.parentBankAccount,
                    agreements := t.agreements, conditions := t.conditions, tranches := t.tranches)
  {
  }

  /** A run: any interleaving of requests, states[i] being the rows before request i. */
  ghost predicate Run(states: seq<State>, steps: seq<Step>) {
    && |states| == |steps| + 1
    && Initial(states[0])
    && forall i :: 0 <= i < |steps| ==> Follows(states, steps, i)
  }

  ghost predicate Follows(states: seq<State>, steps: seq<Step>, i: nat)
    requires i < |steps| && |states| == |steps| + 1
  {
    Admissible(states[i], steps[i]) && states[i + 1] == Apply(states[i], steps[i]).state
  }

  /** Request i of a run succeeded. */
  predicate Succeeded(states: seq<State>, steps: seq<Step>, i: nat)
    requires i < |steps| && |states| == |steps| + 1
  {
    Apply(states[i], steps[i]).error.None?
  }
}
