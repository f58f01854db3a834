/**
 How agreements come to be signed and conditions to be done, and that money waits for both: the rows
 behind a disbursement told by the requests that succeeded, over every run.
 */
module AgreementHistory {
  import opened Wrappers
  import opened LoanState
  import Inv = LoanInvariants

  // ---- Agreements --------------------------------------------------------------------------------

  predicate SendsAt(states: seq<State>, steps: seq<Step>, j: nat, a: nat)
    requires j < |steps| && |states| == |steps| + 1
  {
    steps[j] == SendToSign(a) && Succeeded(states, steps, j)
  }

  /** Request j records that agreement a was signed. */
  predicate SignsAt(states: seq<State>, steps: seq<Step>, j: nat, a: nat)
    requires j < |steps| && |states| == |steps| + 1
  {
    (steps[j] == MarkSigned(a) || steps[j] == UploadSigned(a)) && Succeeded(states, steps, j)
  }

  ghost predicate EverSent(states: seq<State>, steps: seq<Step>, i: nat, a: nat)
    requires i <= |steps| && |states| == |steps| + 1
  {
    exists j :: 0 <= j < i && SendsAt(states, steps, j, a)
  }

  ghost predicate EverSigned(states: seq<State>, steps: seq<Step>, i: nat, a: nat)
    requires i <= |steps| && |states| == |steps| + 1
  {
    exists j :: 0 <= j < i && SignsAt(states, steps, j, a)
  }

  /** The types of the agreements created, in order. */
  function TypesCreated(steps: seq<Step>, i: nat): seq<AgreementType>
    requires i <= |steps|
  {
    if i == 0 then []
    else TypesCreated(steps, i - 1) + (if steps[i - 1].CreateAgreement? then [steps[i - 1].agreementType] else [])
  }

  /** What one request makes of agreement a, and when it does. */
  ghost predicate OnAgreement(s: State, step: Step, o: Outcome, a: nat) {
    && (step.CreateAgreement? ==>
          |o.state.agreements| == |s.agreements| + 1
          && o.state.agreements[|s.agreements|] == Agreement(step.agreementType, Draft))
    && (!step.CreateAgreement? ==> |o.state.agreements| == |s.agreements|)
    && (a < |s.agreements| ==> OnOldAgreement(s.agreements[a], step, o, a))
    && (|s.agreements| <= a && (step == SendToSign(a) || step == MarkSigned(a) || step == UploadSigned(a)) ==> o.error.Some?)
  }

  ghost predicate OnOldAgreement(before: Agreement, step: Step, o: Outcome, a: nat)
    requires a < |o.state.agreements|
  {
    var after := o.state.agreements[a];
    && after.agreementType == before.agreementType
    && (step == SendToSign(a) ==>
          (o.error.None? <==> before.status == Draft)
          && after.status == if o.error.None? then PendingSignature else before.status)
    && (step == MarkSigned(a) ==>
          (o.error.None? <==> before.status == PendingSignature)
          && after.status == if o.error.None? then Signed else before.status)
    && (step == UploadSigned(a) ==>
          (o.error.None? <==> before.status !in {Signed, InForce})
          && after.status == if o.error.None? then Signed else before.status)
    && (step != SendToSign(a) && step != MarkSigned(a) && step != UploadSigned(a) ==> after.status == before.status)
  }

  lemma StepOnAgreement(s: State, step: Step, a: nat)
    ensures OnAgreement(s, step, Apply(s, step), a)
  {
    if IsApproval(step) || IsServicing(step) {
      Inv.OthersLeavePaperwork(s, step);
    } else if Inv.OnAgreements(step) {
      AgreementRequest(s, step, a);
    } else {
      Inv.PaperworkKeepsAgreements(s, step);
    }
  }

  lemma AgreementRequest(s: State, step: Step, a: nat)
    requires Inv.OnAgreements(step)
    ensures OnAgreement(s, step, Apply(s, step), a)
  {
  }

  lemma EverSentNext(states: seq<State>, steps: seq<Step>, i: nat, a: nat)
    requires 0 < i <= |steps| && |states| == |steps| + 1
    ensures EverSent(states, steps, i, a) <==> EverSent(states, steps, i - 1, a) || SendsAt(states, steps, i - 1, a)
  {
    if EverSent(states, steps, i - 1, a) {
      var j :| 0 <= j < i - 1 && SendsAt(states, steps, j, a);
      assert 0 <= j < i && SendsAt(states, steps, j, a);
    }
  }

  lemma EverSignedNext(states: seq<State>, steps: seq<Step>, i: nat, a: nat)
    requires 0 < i <= |steps| && |states| == |steps| + 1
    ensures EverSigned(states, steps, i, a) <==> EverSigned(states, steps, i - 1, a) || SignsAt(states, steps, i - 1, a)
  {
    if EverSigned(states, steps, i - 1, a) {
      var j :| 0 <= j < i - 1 && SignsAt(states, steps, j, a);
      assert 0 <= j < i && SignsAt(states, steps, j, a);
    }
  }

  /**
   In any run an agreement is signed exactly if a request that records its signature succeeded, pending
   exactly if it was sent out and not signed since, and a draft otherwise. Its type is the one it was
   created with.
   */
  lemma {:induction false} SignedExactlyIfRecorded(states: seq<State>, steps: seq<Step>, i: nat, a: nat)
    requires Run(states, steps) && i < |states|
    ensures |states[i].agreements| == |TypesCreated(steps, i)|
    ensures a < |states[i].agreements| ==>
              && states[i].agreements[a].agreementType == TypesCreated(steps, i)[a]
              && states[i].agreements[a].status ==
                   if EverSigned(states, steps, i, a) then Signed
                   else if EverSent(states, steps, i, a) then PendingSignature
                   else Draft
    ensures a >= |states[i].agreements| ==> !EverSigned(states, steps, i, a) && !EverSent(states, steps, i, a)
  {
    if i > 0 {
      SignedExactlyIfRecorded(states, steps, i - 1, a);
      assert Follows(states, steps, i - 1);
      StepOnAgreement(states[i - 1], steps[i - 1], a);
      EverSentNext(states, steps, i, a);
      EverSignedNext(states, steps, i, a);
    }
  }

  /** Signing is a matter of two requests: what is marked as signed was sent out to be signed before. */
  lemma MarkedOnlyAfterSending(states: seq<State>, steps: seq<Step>, j: nat, a: nat)
    requires Run(states, steps) && j < |steps| && steps[j] == MarkSigned(a) && Succeeded(states, steps, j)
    ensures EverSent(states, steps, j, a) && !EverSigned(states, steps, j, a)
  {
    SignedExactlyIfRecorded(states, steps, j, a);
    StepOnAgreement(states[j], steps[j], a);
  }

  /** When each of the three requests on an existing agreement succeeds, told by the ones before it. */
  lemma AgreementRequestsSucceedExactlyWhen(states: seq<State>, steps: seq<Step>, j: nat, a: nat)
    requires Run(states, steps) && j < |steps|
    ensures var created, sent, signed := a < |TypesCreated(steps, j)|, EverSent(states, steps, j, a), EverSigned(states, steps, j, a);
            && (steps[j] == SendToSign(a) ==> (Succeeded(states, steps, j) <==> created && !sent && !signed))
            && (steps[j] == MarkSigned(a) ==> (Succeeded(states, steps, j) <==> sent && !signed))
            && (steps[j] == UploadSigned(a) ==> (Succeeded(states, steps, j) <==> created && !signed))
  {
    SignedExactlyIfRecorded(states, steps, j, a);
    StepOnAgreement(states[j], steps[j], a);
  }

  /** A Loan Agreement counts as signed in a run exactly if a request on one recorded its signature. */
  lemma GateOpensExactlyWhenSigned(states: seq<State>, steps: seq<Step>, i: nat)
    requires Run(states, steps) && i < |states|
    ensures SignedLoanAgreement(states[i]) <==>
              exists a :: 0 <= a < |TypesCreated(steps, i)| && TypesCreated(steps, i)[a] == LoanAgreement
                          && EverSigned(states, steps, i, a)
  {
    var s := states[i];
    SignedExactlyIfRecorded(states, steps, i, 0);
    forall a | 0 <= a < |s.agreements|
      ensures s.agreements[a].agreementType == TypesCreated(steps, i)[a]
      ensures s.agreements[a].status in {Signed, InForce} <==> EverSigned(states, steps, i, a)
    {
      SignedExactlyIfRecorded(states, steps, i, a);
    }
  }

  // ---- Conditions --------------------------------------------------------------------------------

  /** The last status sent for condition c, PENDING since it was added. */
  function LastStatus(states: seq<State>, steps: seq<Step>, i: nat, c: nat): ConditionStatus
    requires i <= |steps| && |states| == |steps| + 1
  {
    if i == 0 || (steps[i - 1].AddCondition? && c == |states[i - 1].conditions|) then Pending
    else if steps[i - 1].UpdateCondition? && steps[i - 1].condition == c && Succeeded(states, steps, i - 1) then
      steps[i - 1].status
    else LastStatus(states, steps, i - 1, c)
  }

  lemma StepOnCondition(s: State, step: Step, c: nat)
    ensures var o := Apply(s, step);
            && |o.state.conditions| == |s.conditions| + (if step.AddCondition? && o.error.None? then 1 else 0)
            && (step.AddCondition? ==> (o.error.None? <==> SignedLoanAgreement(s)))
            && (step.AddCondition? && o.error.None? ==> o.state.conditions[|s.conditions|] == Pending)
            && (step.UpdateCondition? ==> (o.error.None? <==> step.condition < |s.conditions| && SignedLoanAgreement(s)))
            && (c < |s.conditions| ==>
                  o.state.conditions[c] ==
                    if step.UpdateCondition? && step.condition == c && o.error.None? then step.status else s.conditions[c])
  {
    if IsApproval(step) || IsServicing(step) {
      Inv.OthersLeavePaperwork(s, step);
    } else if step.AddCondition? || step.UpdateCondition? {
      ConditionRequest(s, step, c);
    } else {
      RestKeepsConditions(s, step);
    }
  }

  lemma ConditionRequest(s: State, step: Step, c: nat)
    requires step.AddCondition? || step.UpdateCondition?
    ensures var o := Apply(s, step);
            && |o.state.conditions| == |s.conditions| + (if step.AddCondition? && o.error.None? then 1 else 0)
            && (step.AddCondition? ==> (o.error.None? <==> SignedLoanAgreement(s)))
            && (step.AddCondition? && o.error.None? ==> o.state.conditions[|s.conditions|] == Pending)
            && (step.UpdateCondition? ==> (o.error.None? <==> step.condition < |s.conditions| && SignedLoanAgreement(s)))
            && (c < |s.conditions| ==>
                  o.state.conditions[c] ==
                    if step.UpdateCondition? && step.condition == c && o.error.None? then step.status else s.conditions[c])
  {
  }

  lemma RestKeepsConditions(s: State, step: Step)
    requires !IsApproval(step) && !IsServicing(step) && !step.AddCondition? && !step.UpdateCondition?
    ensures Apply(s, step).state.conditions == s.conditions
  {
  }

  /** In any run a condition has the last status sent for it, PENDING if none was. */
  lemma {:induction false} ConditionsAreAsLastSet(states: seq<State>, steps: seq<Step>, i: nat, c: nat)
    requires Run(states, steps) && i < |states| && c < |states[i].conditions|
    ensures states[i].conditions[c] == LastStatus(states, steps, i, c)
  {
    assert i > 0;
    assert Follows(states, steps, i - 1);
    StepOnCondition(states[i - 1], steps[i - 1], c);
    if c < |states[i - 1].conditions| {
      ConditionsAreAsLastSet(states, steps, i - 1, c);
    }
  }

  // ---- Tranches -----------------------------------------------------------------------------------

  /** Everything that must be in place before money leaves. */
  predicate ReadyToDisburse(s: State) {
    s.parentBankAccount && SignedLoanAgreement(s) && forall c :: 0 <= c < |s.conditions| ==> s.conditions[c] == Done
  }

  /** The amounts of the confirmations that succeeded, in order. */
  function Confirmed(states: seq<State>, steps: seq<Step>, i: nat): seq<int>
    requires i <= |steps| && |states| == |steps| + 1
  {
    if i == 0 then []
    else Confirmed(states, steps, i - 1) +
         (if steps[i - 1].ConfirmDisbursement? && Succeeded(states, steps, i - 1) then [steps[i - 1].amount] else [])
  }

  lemma StepOnTranches(s: State, step: Step)
    ensures var o := Apply(s, step);
            && (step.ConfirmDisbursement? ==> (o.error.None? <==> ReadyToDisburse(s)))
            && o.state.tranches ==
                 s.tranches + (if step.ConfirmDisbursement? && o.error.None? then [step.amount] else [])
  {
    if IsApproval(step) || IsServicing(step) {
      Inv.OthersLeavePaperwork(s, step);
    } else if !step.ConfirmDisbursement? {
      Inv.PaperworkPaysNothing(s, step);
    } else {
      assert Apply(s, step) == DoConfirm(s, step.amount);
    }
  }

  /** In any run the tranches are the amounts confirmed, in order. */
  lemma {:induction false} TranchesAreConfirmations(states: seq<State>, steps: seq<Step>, i: nat)
    requires Run(states, steps) && i < |states|
    ensures states[i].tranches == Confirmed(states, steps, i)
  {
    if i > 0 {
      TranchesAreConfirmations(states, steps, i - 1);
      assert Follows(states, steps, i - 1);
      StepOnTranches(states[i - 1], steps[i - 1]);
    }
  }

  /** A confirmation succeeds exactly when everything is in place. */
  lemma ConfirmSucceedsExactlyWhenReady(s: State, amount: int)
    ensures Apply(s, ConfirmDisbursement(amount)).error.None? <==> ReadyToDisburse(s)
  {
    StepOnTranches(s, ConfirmDisbursement(amount));
  }

  /** Request k paid out tranche i, and everything was in place. */
  predicate PaidOutAt(states: seq<State>, steps: seq<Step>, k: nat, i: nat, amount: int)
    requires k < |steps| && |states| == |steps| + 1
  {
    steps[k] == ConfirmDisbursement(amount) && |states[k].tranches| == i && ReadyToDisburse(states[k])
  }

  lemma {:induction false} TrancheWasPaidOut(states: seq<State>, steps: seq<Step>, j: nat, i: nat) returns (k: nat)
    requires Run(states, steps) && j < |states| && i < |states[j].tranches|
    ensures k < j && PaidOutAt(states, steps, k, i, states[j].tranches[i])
    decreases j
  {
    assert j > 0;
    assert Follows(states, steps, j - 1);
    StepOnTranches(states[j - 1], steps[j - 1]);
    if i < |states[j - 1].tranches| {
      k := TrancheWasPaidOut(states, steps, j - 1, i);
    } else {
      k := j - 1;
    }
  }

  /**
   Every tranche was confirmed by a request k of its own, at a moment when the parent's bank account was
   known and every condition done, and after a request that recorded the signature on a Loan Agreement.
   */
  lemma EveryTrancheWasReady(states: seq<State>, steps: seq<Step>, j: nat, i: nat) returns (k: nat, a: nat, signing: nat)
    requires Run(states, steps) && j < |states| && i < |states[j].tranches|
    ensures k < j && PaidOutAt(states, steps, k, i, states[j].tranches[i])
    ensures signing < k && SignsAt(states, steps, signing, a)
    ensures a < |TypesCreated(steps, k)| && TypesCreated(steps, k)[a] == LoanAgreement
  {
    k := TrancheWasPaidOut(states, steps, j, i);
    GateOpensExactlyWhenSigned(states, steps, k);
    a :| 0 <= a < |TypesCreated(steps, k)| && TypesCreated(steps, k)[a] == LoanAgreement && EverSigned(states, steps, k, a);
    signing :| 0 <= signing < k && SignsAt(states, steps, signing, a);
  }

  // ---- The parent's bank account --------------------------------------------------------------------

  function BankAccountSet(states: seq<State>, steps: seq<Step>, i: nat): bool
    requires i <= |steps| && |states| == |steps| + 1
  {
    if i == 0 then states[0].parentBankAccount
    else if steps[i - 1].SetParentBankAccount? then steps[i - 1].present
    else BankAccountSet(states, steps, i - 1)
  }

  lemma StepOnBankAccount(s: State, step: Step)
    ensures Apply(s, step).state.parentBankAccount ==
              if step.SetParentBankAccount? then step.present else s.parentBankAccount
  {
    if IsApproval(step) {
      ApprovalFrame(s, step);
    } else if IsServicing(step) {
      ServicingFrame(s, step);
    } else {
      PaperworkOnBankAccount(s, step);
    }
  }

  lemma PaperworkOnBankAccount(s: State, step: Step)
    requires !IsApproval(step) && !IsServicing(step)
    ensures Apply(s, step).state.parentBankAccount ==
              if step.SetParentBankAccount? then step.present else s.parentBankAccount
  {
  }

  lemma {:induction false} BankAccountIsAsLastSet(states: seq<State>, steps: seq<Step>, i: nat)
    requires Run(states, steps) && i < |states|
    ensures states[i].parentBankAccount == BankAccountSet(states, steps, i)
  {
    if i > 0 {
      BankAccountIsAsLastSet(states, steps, i - 1);
      assert Follows(states, steps, i - 1);
      StepOnBankAccount(states[i - 1], steps[i - 1]);
    }
  }
}
