/**
 The loan account, its schedule and its instalments told by the requests that succeeded, over every run:
 when each request succeeds, and what each column holds after any number of them.
 */
module AccountHistory {
  import opened Wrappers
  import opened LoanTerms
  import opened Entries
  import opened LoanState
  import Schedule
  import Agreements = AgreementHistory
  import History = LoanHistory
  import Inv = LoanInvariants

  // ---- When requests on the account succeed ---------------------------------------------------------

  predicate NotCleared(s: State) {
    s.account.Some? && s.account.value.status != Cleared
  }

  /** After payment `amount` on entry i every instalment is paid in full. */
  predicate SettlesAll(entries: seq<Entry>, i: nat, amount: real) {
    && i < |entries| && entries[i].row.emiAmount as real <= amount
    && forall k :: 0 <= k < |entries| && k != i ==> entries[k].status == Paid
  }

  lemma ReviewRequests(s: State, step: Step)
    requires step.FlagNeedsReview? || step.ResolveReview? || step.CompleteClearance?
    ensures var o := Apply(s, step);
            && (step.FlagNeedsReview? ==> (o.error.None? <==> NotCleared(s)))
            && (step.ResolveReview? ==>
                  (o.error.None? <==> History.UnderReview(s) && History.MayResolve(step.role, s.account.value)))
            && (step.CompleteClearance? ==>
                  (o.error.None? <==> NotCleared(s) && forall k :: 0 <= k < |s.entries| ==> s.entries[k].status == Paid))
            && (o.error.None? ==> o.state.account == Some(
                  if step.FlagNeedsReview? then s.account.value.(status := NeedsReview, reviewAssignedRole := step.assignTo)
                  else if step.ResolveReview? then s.account.value.(status := Active)
                  else s.account.value.(status := Cleared)))
            && (o.error.Some? ==> o.state == s)
  {
  }

  lemma PaymentRequest(s: State, i: nat, amount: real)
    ensures var o := Apply(s, MarkPaid(i, amount));
            && (o.error.None? <==> i < |s.entries|)
            && o.state.account ==
                 if s.account.Some? && s.account.value.status == Active && SettlesAll(s.entries, i, amount)
                 then Some(s.account.value.(status := Cleared)) else s.account
  {
    if i < |s.entries| {
      var after := DoPay(s, i, amount).state.entries;
      assert after[i].status == Paid <==> s.entries[i].row.emiAmount as real <= amount;
      assert forall k :: 0 <= k < |after| && k != i ==> after[k] == s.entries[k];
      AllPaidAfter(s.entries, after, i);
    }
  }

  lemma AllPaidAfter(before: seq<Entry>, after: seq<Entry>, i: nat)
    requires i < |before| == |after| && forall k :: 0 <= k < |after| && k != i ==> after[k] == before[k]
    ensures AllPaid(after) <==> after[i].status == Paid && forall k :: 0 <= k < |before| && k != i ==> before[k].status == Paid
  {
    if AllPaid(after) {
      forall k | 0 <= k < |before| && k != i ensures before[k].status == Paid {
        assert after[k].status == Paid;
      }
    }
  }

  lemma ScheduleRequests(s: State, step: Step)
    requires SetsUpLoan(step)
    ensures var o := Apply(s, step);
            && (step.GenerateSchedule? ==> (o.error.None? <==> step.rows.Ok?))
            && (step.ConfigureServicing? ==>
                  (o.error.None? <==> ConfigurationError(s, step.configuration).None? && step.rows.Ok? && step.rows.value != []))
            && (step.NotifyBorrower? ==>
                  (o.error.None? <==> s.account.Some? && s.account.value.configured && s.entries != []))
  {
  }

  /** A configuration is accepted exactly for an uncleared account with money disbursed, an override
      within it, and no null for a column that must not be null. */
  lemma ConfigurationAcceptedExactlyWhen(s: State, c: Configuration)
    ensures ConfigurationError(s, c).None? <==>
              && NotCleared(s) && s.figures.totalDisbursedAmount.Some? && 0 < s.figures.totalDisbursedAmount.value
              && (c.finalPrincipalAmount.Value? ==>
                    c.finalPrincipalAmount.value <= s.figures.totalDisbursedAmount.value as real)
              && !c.repaymentFrequency.Null? && !c.gracePeriodMonths.Null?
  {
  }

  // ---- The account's status and marks ----------------------------------------------------------------

  /** What the requests so far make of the account's status, None as long as none was approved. */
  function StatusTold(states: seq<State>, steps: seq<Step>, i: nat): Option<AccountStatus>
    requires i <= |steps| && |states| == |steps| + 1
  {
    if i == 0 then None
    else
      var before, step := StatusTold(states, steps, i - 1), steps[i - 1];
      if !Succeeded(states, steps, i - 1) then before
      else if step.Approve? || step.ResolveReview? then Some(Active)
      else if step.FlagNeedsReview? then Some(NeedsReview)
      else if step.CompleteClearance? then Some(Cleared)
      else if step.MarkPaid? && before == Some(Active) && SettlesAll(states[i - 1].entries, step.entry, step.paidAmount)
        then Some(Cleared)
      else before
  }

  /** The role the last review was handed to. */
  function ReviewerTold(states: seq<State>, steps: seq<Step>, i: nat): Option<Role>
    requires i <= |steps| && |states| == |steps| + 1
  {
    if i == 0 then None
    else if steps[i - 1].FlagNeedsReview? && Succeeded(states, steps, i - 1) then steps[i - 1].assignTo
    else ReviewerTold(states, steps, i - 1)
  }

  predicate ConfiguredTold(states: seq<State>, steps: seq<Step>, i: nat)
    requires i <= |steps| && |states| == |steps| + 1
  {
    i > 0 && (History.Configures(states, steps, i - 1) || ConfiguredTold(states, steps, i - 1))
  }

  /** The borrower was notified, by a request of its own or by a configuration that went through. */
  predicate NotifiedTold(states: seq<State>, steps: seq<Step>, i: nat)
    requires i <= |steps| && |states| == |steps| + 1
  {
    i > 0 && (((steps[i - 1].NotifyBorrower? || steps[i - 1].ConfigureServicing?) && Succeeded(states, steps, i - 1))
              || NotifiedTold(states, steps, i - 1))
  }

  /** The first due date of the last schedule stored with an account there. */
  function FirstDueTold(states: seq<State>, steps: seq<Step>, i: nat): Option<int>
    requires i <= |steps| && |states| == |steps| + 1
  {
    if i == 0 then None
    else if states[i - 1].account.Some? && History.Stores(states[i - 1], steps[i - 1]) && steps[i - 1].rows.value != [] then
      Some(steps[i - 1].rows.value[0].dueDate)
    else FirstDueTold(states, steps, i - 1)
  }

  /** An account's columns but for its servicing terms. */
  datatype Marks = Marks(status: AccountStatus, configured: bool, notified: bool, firstDue: Option<int>, reviewer: Option<Role>)

  function MarksOf(a: Account): Marks {
    Marks(a.status, a.configured, a.borrowerNotified, a.firstDueDate, a.reviewAssignedRole)
  }

  lemma StepKeepsMarks(s: State, step: Step)
    requires s.account.Some? && (!IsServicing(step) || step.MarkOverdueEntries?)
    ensures Apply(s, step).state.account == s.account
  {
    if IsApproval(step) {
      History.ApprovalKeepsAccount(s, step);
    } else if !IsServicing(step) {
      PaperworkFrame(s, step);
    }
  }

  lemma SetUpMarks(s: State, step: Step)
    requires s.account.Some? && SetsUpLoan(step)
    ensures var o, m := Apply(s, step), MarksOf(s.account.value);
            o.state.account.Some? && MarksOf(o.state.account.value) == m.(
              configured := m.configured || (step.ConfigureServicing? && ConfigurationError(s, step.configuration).None?),
              notified := m.notified || ((step.NotifyBorrower? || step.ConfigureServicing?) && o.error.None?),
              firstDue := if History.Stores(s, step) && step.rows.value != [] then Some(step.rows.value[0].dueDate) else m.firstDue)
  {
    match step
    case GenerateSchedule(rows) => GenerateMarks(s, rows);
    case ConfigureServicing(c, rows) =>
      if ConfigurationError(s, c).None? {
        ConfigureMarks(s, c, rows);
      }
    case NotifyBorrower =>
  }

  lemma ConfigureMarks(s: State, c: Configuration, rows: Rows)
    requires s.account.Some? && ConfigurationError(s, c).None?
    ensures var o, m := DoConfigure(s, c, rows), MarksOf(s.account.value);
            && o.state.account.Some?
            && MarksOf(o.state.account.value) == m.(
                 configured := true, notified := m.notified || o.error.None?,
                 firstDue := if rows.Ok? && rows.value != [] then Some(rows.value[0].dueDate) else m.firstDue)
  {
    GenerateMarks(WithConfiguration(s, c), rows);
  }

  lemma GenerateMarks(s: State, rows: Rows)
    requires s.account.Some?
    ensures var t := DoGenerate(s, rows).state;
            && t.account.Some?
            && MarksOf(t.account.value) == MarksOf(s.account.value).(
                 firstDue := if rows.Ok? && rows.value != [] then Some(rows.value[0].dueDate)
                             else s.account.value.firstDueDate)
  {
  }

  /**
   In any run an account's status, its reviewer, whether it is configured and its borrower notified, and
   its first due date are what the requests that succeeded so far say, each taken by itself.
   */
  lemma {:induction false} AccountIsAsTold(states: seq<State>, steps: seq<Step>, i: nat)
    requires Run(states, steps) && i < |states|
    ensures states[i].account.Some? <==> StatusTold(states, steps, i).Some?
    ensures states[i].account.None? ==>
              !ConfiguredTold(states, steps, i) && !NotifiedTold(states, steps, i)
              && FirstDueTold(states, steps, i).None? && ReviewerTold(states, steps, i).None?
    ensures states[i].account.Some? ==>
              MarksOf(states[i].account.value) ==
              Marks(StatusTold(states, steps, i).value, ConfiguredTold(states, steps, i), NotifiedTold(states, steps, i),
                    FirstDueTold(states, steps, i), ReviewerTold(states, steps, i))
  {
    if i > 0 {
      AccountIsAsTold(states, steps, i - 1);
      assert Follows(states, steps, i - 1);
      if states[i - 1].account.None? {
        NoAccountNext(states, steps, i);
      } else {
        AccountNext(states, steps, i);
      }
    }
  }

  lemma NoAccountNext(states: seq<State>, steps: seq<Step>, i: nat)
    requires 0 < i <= |steps| && |states| == |steps| + 1 && Follows(states, steps, i - 1)
    requires states[i - 1].account.None? && StatusTold(states, steps, i - 1).None?
    requires !ConfiguredTold(states, steps, i - 1) && !NotifiedTold(states, steps, i - 1)
    requires FirstDueTold(states, steps, i - 1).None? && ReviewerTold(states, steps, i - 1).None?
    ensures states[i].account == (if steps[i - 1] == Approve && Succeeded(states, steps, i - 1) then Some(NEW_ACCOUNT) else None)
    ensures StatusTold(states, steps, i) == if states[i].account.Some? then Some(Active) else None
    ensures !ConfiguredTold(states, steps, i) && !NotifiedTold(states, steps, i)
    ensures FirstDueTold(states, steps, i).None? && ReviewerTold(states, steps, i).None?
  {
    var s, step := states[i - 1], steps[i - 1];
    Inv.StepOpensAccount(s, step);
    NothingWithoutAccount(s, step);
  }

  lemma NothingWithoutAccount(s: State, step: Step)
    requires s.account.None?
    ensures (step.FlagNeedsReview? || step.ResolveReview? || step.CompleteClearance? || step.ConfigureServicing?
             || step.NotifyBorrower?) ==> Apply(s, step).error.Some?
    ensures step == Approve && Apply(s, step).error.None? ==> Apply(s, step).state.account == Some(NEW_ACCOUNT)
  {
    if step.FlagNeedsReview? || step.ResolveReview? || step.CompleteClearance? {
      ReviewRequests(s, step);
    } else if SetsUpLoan(step) {
      ScheduleRequests(s, step);
    }
  }

  lemma AccountNext(states: seq<State>, steps: seq<Step>, i: nat)
    requires 0 < i <= |steps| && |states| == |steps| + 1 && Follows(states, steps, i - 1)
    requires states[i - 1].account.Some? && StatusTold(states, steps, i - 1).Some?
    requires MarksOf(states[i - 1].account.value) ==
             Marks(StatusTold(states, steps, i - 1).value, ConfiguredTold(states, steps, i - 1),
                   NotifiedTold(states, steps, i - 1), FirstDueTold(states, steps, i - 1), ReviewerTold(states, steps, i - 1))
    ensures states[i].account.Some? && StatusTold(states, steps, i).Some?
    ensures MarksOf(states[i].account.value) ==
            Marks(StatusTold(states, steps, i).value, ConfiguredTold(states, steps, i), NotifiedTold(states, steps, i),
                  FirstDueTold(states, steps, i), ReviewerTold(states, steps, i))
  {
    var s, step := states[i - 1], steps[i - 1];
    if SetsUpLoan(step) {
      SetUpMarks(s, step);
    } else if step.FlagNeedsReview? || step.ResolveReview? || step.CompleteClearance? {
      ReviewRequests(s, step);
    } else if step.MarkPaid? {
      PaymentRequest(s, step.entry, step.paidAmount);
    } else {
      StepKeepsMarks(s, step);
      if step.Approve? {
        ApproveNeedsNoAccount(s);
      }
    }
  }

  lemma ApproveNeedsNoAccount(s: State)
    requires s.account.Some?
    ensures Apply(s, Approve).error.Some?
  {
  }

  // ---- The stored schedule ---------------------------------------------------------------------------

  /** The rows of the last schedule stored. */
  function RowsTold(states: seq<State>, steps: seq<Step>, i: nat): seq<Schedule.Row>
    requires i <= |steps| && |states| == |steps| + 1
  {
    if i == 0 then []
    else if History.Stores(states[i - 1], steps[i - 1]) then steps[i - 1].rows.value
    else RowsTold(states, steps, i - 1)
  }

  /** What the requests since make of instalment k, which starts as UPCOMING. */
  function EntryTold(states: seq<State>, steps: seq<Step>, i: nat, k: nat): EntryStatus
    requires i <= |steps| && |states| == |steps| + 1
  {
    if i == 0 || History.Stores(states[i - 1], steps[i - 1]) then Upcoming
    else
      var before, step, rows := EntryTold(states, steps, i - 1, k), steps[i - 1], RowsTold(states, steps, i - 1);
      if k >= |rows| then before
      else if step.MarkPaid? && step.entry == k then (if rows[k].emiAmount as real <= step.paidAmount then Paid else Partial)
      else if step.MarkOverdueEntries? && before in {Upcoming, Partial} && rows[k].dueDate < step.startOfToday then Overdue
      else before
  }

  lemma StoredAreTheRows(s: State, step: Step, k: nat)
    requires History.Stores(s, step)
    ensures var entries := Apply(s, step).state.entries;
            |entries| == |step.rows.value| && (k < |entries| ==> entries[k] == Entry(step.rows.value[k], Upcoming, 0, 0))
  {
  }

  lemma OverdueRequest(s: State, today: int, k: nat)
    ensures var t := Apply(s, MarkOverdueEntries(today)).state;
            && |t.entries| == |s.entries|
            && (k < |s.entries| ==>
                  t.entries[k] == s.entries[k].(status :=
                    if s.entries[k].status in {Upcoming, Partial} && s.entries[k].row.dueDate < today then Overdue
                    else s.entries[k].status))
  {
  }

  lemma OtherKeepsEntries(s: State, step: Step)
    requires !History.Stores(s, step) && !step.MarkPaid? && !step.MarkOverdueEntries?
    ensures Apply(s, step).state.entries == s.entries
  {
    if !IsServicing(step) {
      Inv.OthersLeaveEntries(s, step);
    } else if SetsUpLoan(step) {
      History.FailedSetUpKeepsEntries(s, step);
    } else {
      ReviewRequests(s, step);
      ReviewKeepsEntries(s, step);
    }
  }

  lemma ReviewKeepsEntries(s: State, step: Step)
    requires step.FlagNeedsReview? || step.ResolveReview? || step.CompleteClearance?
    ensures Apply(s, step).state.entries == s.entries
  {
  }

  /**
   In any run the instalments are the rows of the last schedule stored, all of them and in order, each
   with the status the requests since then give it.
   */
  lemma {:induction false} InstalmentsAreAsTold(states: seq<State>, steps: seq<Step>, i: nat, k: nat)
    requires Run(states, steps) && i < |states|
    ensures |states[i].entries| == |RowsTold(states, steps, i)|
    ensures k < |states[i].entries| ==>
              && states[i].entries[k].row == RowsTold(states, steps, i)[k]
              && states[i].entries[k].status == EntryTold(states, steps, i, k)
              && states[i].entries[k].penalInterestAccrued == 0
  {
    if i > 0 {
      InstalmentsAreAsTold(states, steps, i - 1, k);
      assert Follows(states, steps, i - 1);
      var s, step := states[i - 1], steps[i - 1];
      if History.Stores(s, step) {
        StoredAreTheRows(s, step, k);
      } else if step.MarkPaid? {
        History.StepOnEntry(s, step, k);
      } else if step.MarkOverdueEntries? {
        OverdueRequest(s, step.startOfToday, k);
      } else {
        OtherKeepsEntries(s, step);
      }
    }
  }

  // ---- The figures -------------------------------------------------------------------------------------

  function FiguresTold(states: seq<State>, steps: seq<Step>, i: nat): Figures
    requires i <= |steps| && |states| == |steps| + 1
  {
    if i == 0 then states[0].figures
    else if steps[i - 1].EditFigures? then steps[i - 1].figures
    else FiguresTold(states, steps, i - 1)
  }

  lemma StepOnFigures(s: State, step: Step)
    ensures Apply(s, step).state.figures ==
              (if step.EditFigures? then step.figures else s.figures).(
                totalDisbursedAmount := Apply(s, step).state.figures.totalDisbursedAmount)
  {
    if IsApproval(step) {
      ApprovalFrame(s, step);
    } else if IsServicing(step) {
      ServicingFrame(s, step);
    } else {
      PaperworkOnFigures(s, step);
    }
  }

  lemma PaperworkOnFigures(s: State, step: Step)
    requires !IsApproval(step) && !IsServicing(step)
    ensures Apply(s, step).state.figures ==
              (if step.EditFigures? then step.figures else s.figures).(
                totalDisbursedAmount := Apply(s, step).state.figures.totalDisbursedAmount)
  {
  }

  /** In any run the figures are the last ones edited, the disbursed total being the sum of what was confirmed. */
  lemma {:induction false} FiguresAreAsTold(states: seq<State>, steps: seq<Step>, i: nat)
    requires Run(states, steps) && i < |states|
    ensures var confirmed := Agreements.Confirmed(states, steps, i);
            states[i].figures == FiguresTold(states, steps, i).(
              totalDisbursedAmount := if confirmed == [] then None else Some(Inv.SumOf(confirmed)))
  {
    Inv.InvariantAlways(states, steps, i);
    Agreements.TranchesAreConfirmations(states, steps, i);
    if i > 0 {
      FiguresAreAsTold(states, steps, i - 1);
      assert Follows(states, steps, i - 1);
      StepOnFigures(states[i - 1], steps[i - 1]);
    }
  }
}
