/**
 Safety of the approval chain over whole runs
 (src/modules/dashboard/approval/dashboard-approval.service.ts): how often requests can move an
 application forward, and what an Approver's send-back entitles it to skip.
 */
module ApprovalRuns {
  import opened Wrappers
  import opened LoanState
  import Inv = LoanInvariants

  predicate IsForward(step: Step) {
    step.Support? || step.Check? || step.Approve? || step.Resubmit?
  }

  /** The step jumps over the Checker, or over the Supporter and the Checker. */
  predicate Skips(s: State, step: Step) {
    (step.Support? || step.Resubmit?) && Apply(s, step).error.None? && Apply(s, step).state.stage == Some(Checking)
  }

  /** How far an application is from a decision. */
  function Rank(stage: Option<Stage>): nat {
    match stage
    case None => 3
    case Some(Initiated) => 3
    case Some(SentBack) => 3
    case Some(Supported) => 2
    case Some(Checking) => 1
    case Some(_) => 0
  }

  function Forwards(states: seq<State>, steps: seq<Step>, k: nat): nat
    requires k <= |steps| && |states| == |steps| + 1
  {
    if k == 0 then 0
    else Forwards(states, steps, k - 1) + (if IsForward(steps[k - 1]) && Succeeded(states, steps, k - 1) then 1 else 0)
  }

  function SendBacks(steps: seq<Step>, k: nat): nat
    requires k <= |steps|
  {
    if k == 0 then 0 else SendBacks(steps, k - 1) + (if steps[k - 1].SendBack? then 1 else 0)
  }

  function ApproverSendBacks(steps: seq<Step>, k: nat): nat
    requires k <= |steps|
  {
    if k == 0 then 0
    else ApproverSendBacks(steps, k - 1) + (if steps[k - 1].SendBack? && steps[k - 1].role == Approver then 1 else 0)
  }

  function SkipCount(states: seq<State>, steps: seq<Step>, k: nat): nat
    requires k <= |steps| && |states| == |steps| + 1
  {
    if k == 0 then 0
    else SkipCount(states, steps, k - 1) + (if Skips(states[k - 1], steps[k - 1]) then 1 else 0)
  }

  lemma StepRank(s: State, step: Step)
    ensures var o := Apply(s, step);
            && (IsForward(step) && o.error.None? ==> Rank(o.state.stage) < Rank(s.stage))
            && (step.SendBack? ==> Rank(o.state.stage) == 3)
            && (!step.SendBack? ==> Rank(o.state.stage) <= Rank(s.stage))
  {
    if IsServicing(step) {
      ServicingFrame(s, step);
    } else if !IsApproval(step) {
      PaperworkFrame(s, step);
    }
  }

  lemma {:induction false} RankPaysForForwards(states: seq<State>, steps: seq<Step>, k: nat)
    requires Run(states, steps) && k <= |steps|
    ensures Forwards(states, steps, k) + Rank(states[k].stage) <= 3 * (SendBacks(steps, k) + 1)
  {
    if k > 0 {
      RankPaysForForwards(states, steps, k - 1);
      assert Follows(states, steps, k - 1);
      StepRank(states[k - 1], steps[k - 1]);
    }
  }

  /** Forward steps number at most three for the start and three for each send-back. */
  lemma ForwardsAreBounded(states: seq<State>, steps: seq<Step>, k: nat)
    requires Run(states, steps) && k <= |steps|
    ensures Forwards(states, steps, k) <= 3 * (SendBacks(steps, k) + 1)
  {
    RankPaysForForwards(states, steps, k);
  }

  /** The successful forward steps, in order. */
  function ForwardTrace(states: seq<State>, steps: seq<Step>, k: nat): seq<Step>
    requires k <= |steps| && |states| == |steps| + 1
  {
    if k == 0 then []
    else ForwardTrace(states, steps, k - 1) +
         (if IsForward(steps[k - 1]) && Succeeded(states, steps, k - 1) then [steps[k - 1]] else [])
  }

  const CHAIN: seq<Step> := [Support, Check, Approve]

  /** Without send-backs the chain is walked once, in order, as far as it gets. */
  lemma NoSendBackNoRepeat(states: seq<State>, steps: seq<Step>, k: nat)
    requires Run(states, steps) && k <= |steps| && SendBacks(steps, k) == 0
    ensures ForwardTrace(states, steps, k) <= CHAIN
  {
    ChainProgress(states, steps, k);
  }

  lemma {:induction false} ChainProgress(states: seq<State>, steps: seq<Step>, k: nat)
    requires Run(states, steps) && k <= |steps| && SendBacks(steps, k) == 0
    ensures var stage, trace := states[k].stage, ForwardTrace(states, steps, k);
            && stage != Some(SentBack) && !states[k].sentBackByApprover
            && trace <= CHAIN
            && (stage != Some(Rejected) ==> |trace| == 3 - Rank(stage))
  {
    if k > 0 {
      ChainProgress(states, steps, k - 1);
      assert Follows(states, steps, k - 1);
      ChainStep(states[k - 1], steps[k - 1], ForwardTrace(states, steps, k - 1));
    }
  }

  lemma ChainStep(s: State, step: Step, trace: seq<Step>)
    requires !step.SendBack? && s.stage != Some(SentBack) && !s.sentBackByApprover
    requires trace <= CHAIN && (s.stage != Some(Rejected) ==> |trace| == 3 - Rank(s.stage))
    ensures var o := Apply(s, step);
            var trace' := trace + (if IsForward(step) && o.error.None? then [step] else []);
            && o.state.stage != Some(SentBack) && !o.state.sentBackByApprover
            && trace' <= CHAIN
            && (o.state.stage != Some(Rejected) ==> |trace'| == 3 - Rank(o.state.stage))
  {
    if IsForward(step) {
      ForwardChainStep(s, step, trace);
    } else if IsServicing(step) {
      ServicingFrame(s, step);
    } else if !step.Reject? {
      PaperworkFrame(s, step);
    }
  }

  lemma ForwardChainStep(s: State, step: Step, trace: seq<Step>)
    requires IsForward(step) && s.stage != Some(SentBack) && !s.sentBackByApprover
    requires trace <= CHAIN && (s.stage != Some(Rejected) ==> |trace| == 3 - Rank(s.stage))
    ensures var o := Apply(s, step);
            var trace' := trace + (if o.error.None? then [step] else []);
            && o.state.stage != Some(SentBack) && !o.state.sentBackByApprover
            && trace' <= CHAIN
            && (o.state.stage != Some(Rejected) ==> |trace'| == 3 - Rank(o.state.stage))
  {
    match step
    case Support => assert Apply(s, step) == DoSupport(s);
    case Check => assert Apply(s, step) == DoCheck(s);
    case Approve => assert Apply(s, step) == DoApprove(s);
    case Resubmit => assert Apply(s, step) == DoResubmit(s);
  }

  /** Every skip to CHECKING uses up an Approver's send-back of its own. */
  lemma SkipsNeedApprover(states: seq<State>, steps: seq<Step>, k: nat)
    requires Run(states, steps) && k <= |steps|
    ensures SkipCount(states, steps, k) <= ApproverSendBacks(steps, k)
  {
    SkipsPaidFor(states, steps, k);
  }

  lemma {:induction false} SkipsPaidFor(states: seq<State>, steps: seq<Step>, k: nat)
    requires Run(states, steps) && k <= |steps|
    ensures SkipCount(states, steps, k) + (if states[k].sentBackByApprover then 1 else 0) <= ApproverSendBacks(steps, k)
  {
    if k > 0 {
      SkipsPaidFor(states, steps, k - 1);
      assert Follows(states, steps, k - 1);
      SkipStep(states[k - 1], steps[k - 1]);
    }
  }

  lemma SkipStep(s: State, step: Step)
    ensures var t := Apply(s, step).state;
            && (Skips(s, step) ==> s.sentBackByApprover && !t.sentBackByApprover)
            && (t.sentBackByApprover && !s.sentBackByApprover ==> step.SendBack? && step.role == Approver)
  {
  }

  /** An application is approved at most once in its life. */
  lemma ApprovedAtMostOnce(states: seq<State>, steps: seq<Step>, i: nat, j: nat)
    requires Run(states, steps) && i < j < |steps|
    requires steps[i] == Approve && Succeeded(states, steps, i)
    ensures !(steps[j] == Approve && Succeeded(states, steps, j))
  {
    assert Follows(states, steps, i);
    Inv.NothingIsTakenBack(states, steps, i + 1, j);
  }

  /**
   Sending an approved application back, or rejecting it, is final: it keeps its loan account,
   and with an account no later request ever brings it back to APPROVED.
   */
  lemma {:induction false} LeavingApprovedIsFinal(states: seq<State>, steps: seq<Step>, i: nat, j: nat)
    requires Run(states, steps) && i <= j < |states|
    requires states[i].account.Some? && states[i].stage != Some(Approved)
    ensures states[j].account.Some? && states[j].stage != Some(Approved)
    decreases j
  {
    if i < j {
      LeavingApprovedIsFinal(states, steps, i, j - 1);
      assert Follows(states, steps, j - 1);
      Inv.NothingIsTakenBack(states, steps, j - 1, j);
    }
  }

  /**
   The Initiator can resubmit exactly the applications that were sent back and are theirs to
   edit, and resubmitting ends the right to edit.
   */
  lemma ResubmitIsTheInitiatorsTurn(s: State)
    ensures Apply(s, Resubmit).error.None? <==> InitiatorCanEdit(s) && s.stage == Some(SentBack)
    ensures Apply(s, Resubmit).error.None? ==> !InitiatorCanEdit(Apply(s, Resubmit).state)
  {
  }

  // ---- Where an application stands, told by its requests -------------------------------------------------

  /** An Approver's send-back is owed its shortcut until a request that moves the application takes it. */
  predicate ShortcutOwed(states: seq<State>, steps: seq<Step>, i: nat)
    requires i <= |steps| && |states| == |steps| + 1
  {
    if i == 0 then false
    else if steps[i - 1].SendBack? then steps[i - 1].role == Approver
    else if IsForward(steps[i - 1]) && Succeeded(states, steps, i - 1) then false
    else ShortcutOwed(states, steps, i - 1)
  }

  function StageTold(states: seq<State>, steps: seq<Step>, i: nat): Option<Stage>
    requires i <= |steps| && |states| == |steps| + 1
  {
    if i == 0 then states[0].stage
    else
      var step := steps[i - 1];
      if step.Reject? then Some(Rejected)
      else if step.SendBack? then Some(SentBack)
      else if !IsForward(step) || !Succeeded(states, steps, i - 1) then StageTold(states, steps, i - 1)
      else if step.Approve? then Some(Approved)
      else if step.Check? || ShortcutOwed(states, steps, i - 1) then Some(Checking)
      else Some(Supported)
  }

  /** Where the last send-back sent it, to the Initiator unless it said otherwise. */
  function TargetTold(states: seq<State>, steps: seq<Step>, i: nat): Option<Stage>
    requires i <= |steps| && |states| == |steps| + 1
  {
    if i == 0 then states[0].sentBackToStage
    else if steps[i - 1].SendBack? then Some(if steps[i - 1].toStage.Some? then steps[i - 1].toStage.value else Initiated)
    else TargetTold(states, steps, i - 1)
  }

  lemma OnApproval(s: State, step: Step)
    requires IsApproval(step) && (step.Approve? ==> !s.sentBackByApprover)
    ensures var o := Apply(s, step);
            && o.state.stage ==
                 (if step.Reject? then Some(Rejected)
                  else if step.SendBack? then Some(SentBack)
                  else if o.error.Some? then s.stage
                  else if step.Approve? then Some(Approved)
                  else if step.Check? || s.sentBackByApprover then Some(Checking)
                  else Some(Supported))
            && o.state.sentBackByApprover ==
                 (if step.SendBack? then step.role == Approver
                  else s.sentBackByApprover && !(IsForward(step) && o.error.None?))
            && o.state.sentBackToStage ==
                 if step.SendBack? then Some(if step.toStage.Some? then step.toStage.value else Initiated)
                 else s.sentBackToStage
  {
  }

  lemma StepOnStage(s: State, step: Step)
    requires Inv.ApprovalSound(s)
    ensures (IsApproval(step) && (step.Approve? ==> Apply(s, step).error.Some? || !s.sentBackByApprover))
            || (Apply(s, step).state.stage == s.stage
                && Apply(s, step).state.sentBackByApprover == s.sentBackByApprover
                && Apply(s, step).state.sentBackToStage == s.sentBackToStage)
  {
    if IsServicing(step) {
      ServicingFrame(s, step);
    } else if !IsApproval(step) {
      PaperworkFrame(s, step);
    }
  }

  lemma FailedApproveKeeps(s: State)
    requires Apply(s, Approve).error.Some?
    ensures Apply(s, Approve).state == s
  {
  }

  /**
   In any run the stage is where the last request that succeeded in moving the application put it:
   rejecting ends in REJECTED, sending back in SENT_BACK, and support or resubmission in CHECKING exactly
   if an Approver's send-back is still owed its shortcut, otherwise in SUPPORTED.
   */
  lemma {:induction false} StageIsAsTold(states: seq<State>, steps: seq<Step>, i: nat)
    requires Run(states, steps) && i < |states|
    ensures states[i].stage == StageTold(states, steps, i)
    ensures states[i].sentBackByApprover == ShortcutOwed(states, steps, i)
    ensures states[i].sentBackToStage == TargetTold(states, steps, i)
  {
    if i > 0 {
      StageIsAsTold(states, steps, i - 1);
      assert Follows(states, steps, i - 1);
      Inv.InvariantAlways(states, steps, i - 1);
      var s, step := states[i - 1], steps[i - 1];
      StepOnStage(s, step);
      if step.Approve? && Apply(s, step).error.Some? {
        FailedApproveKeeps(s);
      } else if IsApproval(step) {
        OnApproval(s, step);
      }
    }
  }

  /** From which stages the requests of the chain succeed; rejecting and sending back always do. */
  lemma ChainSucceedsExactlyFrom(s: State, step: Step)
    requires IsApproval(step)
    ensures Apply(s, step).error.None? <==>
              match step
              case Support => s.stage in {None, Some(Initiated), Some(SentBack)}
              case Check => s.stage in {Some(Supported), Some(SentBack)}
              case Approve => s.stage == Some(Checking) && s.account.None?
              case Resubmit => s.stage == Some(SentBack) && s.sentBackToStage == Some(Initiated)
              case _ => true
  {
  }

  /** The Initiator may edit exactly what never left them or came back to them. */
  lemma EditableExactlyWhen(s: State)
    ensures InitiatorCanEdit(s) <==>
              s.stage.None? || s.stage == Some(Initiated) || Apply(s, Resubmit).error.None?
  {
  }
}
