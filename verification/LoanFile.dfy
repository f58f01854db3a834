/**
 The services as methods that update the stored rows of one application in place. Each is
 proved to do exactly its step of the transition system, errors included.
 */
module LoanFile {
  import opened Wrappers
  import opened RealMath
  import opened Calendar
  import opened LoanTerms
  import opened Entries
  import opened LoanState
  import Schedule
  import Inv = LoanInvariants

  class File {
    var stage: Option<Stage>
    var sentBackToStage: Option<Stage>
    var sentBackByApprover: bool
    var approverDated: bool
    var figures: Figures
    var parentBankAccount: bool
    var account: Option<Account>
    var agreements: seq<Agreement>
    var conditions: seq<ConditionStatus>
    var tranches: seq<int>
    var entries: seq<Entry>

    function Rows(): State
      reads this
    {
      State(stage, sentBackToStage, sentBackByApprover, approverDated, figures, parentBankAccount, account,
            agreements, conditions, tranches, entries)
    }

    constructor (figures: Figures)
      requires figures.totalDisbursedAmount.None?
      ensures Initial(Rows()) && Inv.Invariant(Rows()) && this.figures == figures
    {
      stage, sentBackToStage, sentBackByApprover, approverDated := None, None, false, false;
      this.figures := figures;
      parentBankAccount, account := false, None;
      agreements, conditions, tranches, entries := [], [], [], [];
    }

    // ---- Approval -------------------------------------------------------------------------

    method Support() returns (error: Option<Error>)
      modifies this
      ensures Outcome(Rows(), error) == Apply(old(Rows()), Step.Support)
    {
      if stage !in {None, Some(Initiated), Some(SentBack)} {
        return Some(WrongStage);
      }
      var shortcut := sentBackByApprover;
      stage := Some(if shortcut then Checking else Supported);
      if shortcut {
        sentBackByApprover := false;
      }
      return None;
    }

    method Check() returns (error: Option<Error>)
      modifies this
      ensures Outcome(Rows(), error) == Apply(old(Rows()), Step.Check)
    {
      if stage !in {Some(Supported), Some(SentBack)} {
        return Some(WrongStage);
      }
      stage := Some(Checking);
      if sentBackByApprover {
        sentBackByApprover := false;
      }
      return None;
    }

    method Approve() returns (error: Option<Error>)
      modifies this
      ensures Outcome(Rows(), error) == Apply(old(Rows()), Step.Approve)
    {
      if stage != Some(Checking) {
        return Some(WrongStage);
      }
      if account.Some? {
        return Some(AccountExists);
      }
      stage, approverDated := Some(Approved), true;
      account := Some(NEW_ACCOUNT);
      return None;
    }

    method Reject() returns (error: Option<Error>)
      modifies this
      ensures Outcome(Rows(), error) == Apply(old(Rows()), Step.Reject)
    {
      stage := Some(Rejected);
      return None;
    }

    method SendBack(role: Role, toStage: Option<Stage>) returns (error: Option<Error>)
      modifies this
      ensures Outcome(Rows(), error) == Apply(old(Rows()), Step.SendBack(role, toStage))
    {
      stage := Some(SentBack);
      sentBackToStage := Some(toStage.GetOr(Initiated));
      sentBackByApprover := role == Approver;
      return None;
    }

    method Resubmit() returns (error: Option<Error>)
      modifies this
      ensures Outcome(Rows(), error) == Apply(old(Rows()), Step.Resubmit)
    {
      if stage != Some(SentBack) || sentBackToStage != Some(Initiated) {
        return Some(NotSentBackToInitiator);
      }
      var shortcut := sentBackByApprover;
      stage := Some(if shortcut then Checking else Supported);
      if shortcut {
        sentBackByApprover := false;
      }
      return None;
    }

    /** The part of updateInitiatorApplication that writes the Approver's date. */
    method EditApproverDate(dated: bool) returns (error: Option<Error>)
      modifies this
      ensures Outcome(Rows(), error) == Apply(old(Rows()), Step.EditApproverDate(dated))
    {
      var stillWithInitiator := stage.None? || stage == Some(Initiated)
                                || (stage == Some(SentBack) && sentBackToStage == Some(Initiated));
      if !stillWithInitiator {
        return Some(PastInitiator);
      }
      approverDated := dated;
      return None;
    }

    // ---- Agreements --------------------------------------------------------------------------

    method CreateAgreement(agreementType: AgreementType)
      modifies this
      ensures Outcome(Rows(), None) == Apply(old(Rows()), Step.CreateAgreement(agreementType))
    {
      agreements := agreements + [Agreement(agreementType, Draft)];
    }

    method SendToSign(i: nat) returns (error: Option<Error>)
      modifies this
      ensures Outcome(Rows(), error) == Apply(old(Rows()), Step.SendToSign(i))
    {
      if |agreements| <= i {
        return Some(NotFound);
      }
      if agreements[i].status != Draft {
        return Some(WrongAgreementStatus);
      }
      agreements := agreements[i := agreements[i].(status := PendingSignature)];
      return None;
    }

    method MarkSigned(i: nat) returns (error: Option<Error>)
      modifies this
      ensures Outcome(Rows(), error) == Apply(old(Rows()), Step.MarkSigned(i))
    {
      if |agreements| <= i {
        return Some(NotFound);
      }
      if agreements[i].status != PendingSignature {
        return Some(WrongAgreementStatus);
      }
      agreements := agreements[i := agreements[i].(status := Signed)];
      return None;
    }

    method UploadSigned(i: nat) returns (error: Option<Error>)
      modifies this
      ensures Outcome(Rows(), error) == Apply(old(Rows()), Step.UploadSigned(i))
    {
      if |agreements| <= i {
        return Some(NotFound);
      }
      if agreements[i].status in {Signed, InForce} {
        return Some(WrongAgreementStatus);
      }
      agreements := agreements[i := agreements[i].(status := Signed)];
      return None;
    }

    // ---- Disbursement ----------------------------------------------------------------------------

    /** assertSignedLoanAgreement's query for a first matching agreement. */
    method FindSignedLoanAgreement() returns (found: bool)
      ensures found == SignedLoanAgreement(Rows())
    {
      var i := 0;
      while i < |agreements|
        invariant 0 <= i <= |agreements|
        invariant forall j :: 0 <= j < i ==>
          !(agreements[j].agreementType == LoanAgreement && agreements[j].status in {Signed, InForce})
      {
        if agreements[i].agreementType == LoanAgreement && agreements[i].status in {Signed, InForce} {
          return true;
        }
        i := i + 1;
      }
      return false;
    }

    method AddCondition() returns (error: Option<Error>)
      modifies this
      ensures Outcome(Rows(), error) == Apply(old(Rows()), Step.AddCondition)
    {
      var signed := FindSignedLoanAgreement();
      if !signed {
        return Some(NoSignedAgreement);
      }
      conditions := conditions + [Pending];
      return None;
    }

    method UpdateCondition(i: nat, status: ConditionStatus) returns (error: Option<Error>)
      modifies this
      ensures Outcome(Rows(), error) == Apply(old(Rows()), Step.UpdateCondition(i, status))
    {
      if |conditions| <= i {
        return Some(NotFound);
      }
      var signed := FindSignedLoanAgreement();
      if !signed {
        return Some(NoSignedAgreement);
      }
      conditions := conditions[i := status];
      return None;
    }

    method ConfirmDisbursement(amount: int) returns (error: Option<Error>)
      modifies this
      ensures Outcome(Rows(), error) == Apply(old(Rows()), Step.ConfirmDisbursement(amount))
    {
      if !parentBankAccount {
        return Some(NoBankAccount);
      }
      var signed := FindSignedLoanAgreement();
      if !signed {
        return Some(NoSignedAgreement);
      }
      if exists i :: 0 <= i < |conditions| && conditions[i] != Done {
        return Some(ConditionsPending);
      }
      if figures.totalDisbursedAmount.None? {
        figures := figures.(totalDisbursedAmount := Some(amount));
      } else {
        figures := figures.(totalDisbursedAmount := Some(figures.totalDisbursedAmount.value + amount));
      }
      tranches := tranches + [amount];
      return None;
    }

    // ---- Servicing ---------------------------------------------------------------------------------

    method GenerateSchedule(now: CivilTime, root: real) returns (error: Option<Error>)
      requires Schedule.RootFor(Effective(figures, ServicingOf(Rows())), root)
      modifies this
      ensures Outcome(Rows(), error) == DoGenerate(old(Rows()), old(Schedule.Generated(figures, ServicingOf(Rows()), now, root)))
    {
      var servicing := if account.Some? then Some(account.value.servicing) else None;
      var r := Schedule.GenerateSchedule(Some(figures), servicing, now, root);
      if r.Err? {
        return Some(ScheduleError(r.error));
      }
      entries := FreshAll(r.value);
      if account.Some? && r.value != [] {
        account := Some(account.value.(firstDueDate := Some(r.value[0].dueDate)));
      }
      return None;
    }

    method ConfigureServicing(c: Configuration, now: CivilTime, root: real) returns (error: Option<Error>)
      requires ConfigurationError(Rows(), c).None? ==>
        Schedule.RootFor(Effective(figures, ServicingOf(WithConfiguration(Rows(), c))), root)
      modifies this
      ensures old(ConfigurationError(Rows(), c)).Some? ==>
        Rows() == old(Rows()) && error == old(ConfigurationError(Rows(), c))
      ensures old(ConfigurationError(Rows(), c)).None? ==>
        Outcome(Rows(), error) == DoConfigure(old(Rows()), c,
          old(Schedule.Generated(figures, ServicingOf(WithConfiguration(Rows(), c)), now, root)))
    {
      if account.None? {
        return Some(NotFound);
      }
      if account.value.status == Cleared {
        return Some(AlreadyCleared);
      }
      var disbursed := figures.totalDisbursedAmount.GetOr(0);
      if disbursed <= 0 {
        return Some(NotDisbursed);
      }
      if c.finalPrincipalAmount.Value? && disbursed as real < c.finalPrincipalAmount.value {
        return Some(OverrideTooLarge);
      }
      if c.repaymentFrequency.Null? || c.gracePeriodMonths.Null? {
        return Some(NotNullable);
      }
      account := Some(Configured(account.value, c));
      ghost var configured := WithConfiguration(old(Rows()), c);
      assert Rows() == configured;
      error := GenerateSchedule(now, root);
      assert Outcome(Rows(), error)
          == DoGenerate(configured, Schedule.Generated(configured.figures, ServicingOf(configured), now, root));
      if error.None? {
        error := NotifyBorrower();
      }
    }

    method NotifyBorrower() returns (error: Option<Error>)
      modifies this
      ensures Outcome(Rows(), error) == Apply(old(Rows()), Step.NotifyBorrower)
    {
      if account.None? || !account.value.configured {
        return Some(NotConfigured);
      }
      if entries == [] {
        return Some(NoSchedule);
      }
      account := Some(account.value.(borrowerNotified := true));
      return None;
    }

    // ---- Review and clearance ------------------------------------------------------------------------

    method FlagNeedsReview(assignTo: Option<Role>) returns (error: Option<Error>)
      modifies this
      ensures Outcome(Rows(), error) == Apply(old(Rows()), Step.FlagNeedsReview(assignTo))
    {
      if account.None? {
        return Some(NotFound);
      }
      if account.value.status == Cleared {
        return Some(AlreadyCleared);
      }
      account := Some(account.value.(status := NeedsReview, reviewAssignedRole := assignTo));
      return None;
    }

    method ResolveReview(role: Role) returns (error: Option<Error>)
      modifies this
      ensures Outcome(Rows(), error) == Apply(old(Rows()), Step.ResolveReview(role))
    {
      if account.None? {
        return Some(NotFound);
      }
      if account.value.status != NeedsReview {
        return Some(NotUnderReview);
      }
      var isAssignedReviewer := account.value.reviewAssignedRole == Some(role);
      if role !in {CreditManager, Admin} && !isAssignedReviewer {
        return Some(NotReviewer);
      }
      account := Some(account.value.(status := Active));
      return None;
    }

    /** The count of entries whose status is not PAID. */
    method CountUnpaid() returns (unpaid: nat)
      ensures unpaid == 0 <==> AllPaid(entries)
    {
      unpaid := 0;
      for i := 0 to |entries|
        invariant unpaid == 0 <==> forall j :: 0 <= j < i ==> entries[j].status == Paid
      {
        if entries[i].status != Paid {
          unpaid := unpaid + 1;
        }
      }
    }

    method CompleteClearance() returns (error: Option<Error>)
      modifies this
      ensures Outcome(Rows(), error) == Apply(old(Rows()), Step.CompleteClearance)
    {
      if account.None? {
        return Some(NotFound);
      }
      if account.value.status == Cleared {
        return Some(AlreadyCleared);
      }
      var unpaid := CountUnpaid();
      if unpaid > 0 {
        return Some(UnpaidInstalments);
      }
      account := Some(account.value.(status := Cleared));
      return None;
    }

    // ---- Payments --------------------------------------------------------------------------------------

    method MarkPaid(i: nat, paidAmount: real) returns (error: Option<Error>)
      modifies this
      ensures Outcome(Rows(), error) == Apply(old(Rows()), Step.MarkPaid(i, paidAmount))
    {
      if |entries| <= i {
        return Some(NotFound);
      }
      var fullyPaid := entries[i].row.emiAmount as real <= paidAmount;
      entries := entries[i := entries[i].(paidAmount := Stored(paidAmount), status := if fullyPaid then Paid else Partial)];
      if fullyPaid {
        var remaining := CountUnpaid();
        if remaining == 0 && account.Some? && account.value.status == Active {
          account := Some(account.value.(status := Cleared));
        }
      }
      return None;
    }

    /** Exactly the unpaid entries due before today become OVERDUE; nothing else changes. */
    method MarkOverdueEntries(startOfToday: int)
      modifies this
      ensures |entries| == |old(entries)|
      ensures forall i :: 0 <= i < |entries| ==>
                var e := old(entries)[i];
                entries[i] == if e.status in {Upcoming, Partial} && e.row.dueDate < startOfToday then e.(status := Overdue) else e
      ensures Outcome(Rows(), None) == Apply(old(Rows()), Step.MarkOverdueEntries(startOfToday))
    {
      entries := OverdueAll(entries, startOfToday);
    }
  }
}
