# A verified model of the education-loan back end

This project models, in Dafny, the parts of the back end where mistakes cost money or let a loan
slip past a control, and proves what they are for. `dafny verify dfyconfig.toml` checks all of it.

- **Amortisation** (`Rates`, `EmiCalculator`, `LoanTerms`, `Calendar`, `Schedule`): how rates are
  converted between compounding and payment cadence, how the instalment is computed, and the loop
  that rounds every amount to the paisa and rolls due dates over month ends. The rounded schedule is
  compared with an annuity kept to infinite precision, and due dates with the calendar of ECMA-262.
- **The loan's life** (`Entries`, `LoanState`, `LoanFile`, `LoanInvariants`, `ApprovalRuns`,
  `AgreementHistory`, `AccountHistory`, `LoanHistory`): approval chain, legal agreement, disbursement,
  servicing, payments, review and clearance as one transition system over the rows of an application.
  `LoanFile.File` updates those rows in place, request by request; each of its methods is proved to do
  exactly one step of the transition system, failures included. About that system, and for all
  interleavings, the invariants are proved, and what each column holds is told by the requests that
  succeeded before.
- **The nightly job** (`DailyJob`, `JobRuns`): its loops, and what they amount to over many nights.
- **Verification invitations** (`Invitations`, `InvitationRuns`, `InvitationHistory`): the life of the
  links mailed to parents and colleges, and who may open them, over every run of requests.
- **The bank-account gate** (`BankGate`): first request by request, then with the single statements of
  any number of requests interleaved.
- **Texts** (`Text`, `Csv`, `Slugs`, `Marketplace`): the CSV exports against a reader for section 2 of
  RFC 4180, slugs as a normal form of names, and the catalogues that keep them unique.

## Conventions and assumptions

- Money is in whole paisa, as the two-decimal columns hold it; configured amounts and rates are rounded
  to two decimals where they are stored. Rates are exact reals and arithmetic on them is exact where
  the original computes in IEEE doubles; `Math.round` is the floor of x + 0.5.
- The fractional power in the rate conversion is a value that the contracts require to be the root.
- Times are local milliseconds in one civil calendar without daylight saving; every day has 24 hours.
- A request is one atomic step unless stated otherwise (`BankGate` also models interleaved
  statements). The clock never goes back and links are listed in order of creation.
- The figures of an application may change at any time, which is more often than the code lets them.
- An application starts with stage null or INITIATED, not sent back, without account, agreements,
  conditions, tranches or entries; it has at most one loan account, by its unique key.
- Tokens are numbers that are never drawn twice, and their digests are injective.
- Audit-log writes succeed and notifications do not fail the request that sends them; whether an
  invitation mail was delivered is a parameter.
- A quantified statement about a run is about every sequence of requests that starts from the states
  named in its `requires`; nothing bounds its length.

## Where the code differs from its comments

- `ensureRequirementIfBothVerified` (src/modules/bank-account/bank-account-opening.service.ts:46-53):
  the comment says that a duplicate creation finds the existing row and returns. The code would fail
  on the unique key instead; the model follows the code (`BankGate.Advance`).
- The comment on the token column (prisma/schema.prisma:910-916) says that it is cleared when an
  invitation is verified; `markVerified` keeps it, and so does the model.
- The comment on `markVerified` (src/modules/verification/verification-invitation.service.ts:371-377) says
  that a token is invalidated the moment it is superseded. Only a SENT or OPENED link is; the token of
  a VERIFIED one keeps working until it expires (`InvitationRuns.VerifiedKeepsWorking`).
- An Approver's date is no proof of approval: the Initiator's form can set and clear it
  (`LoanHistory.DateDisagreesExactlyWhen`). A loan account is (`LoanInvariants.AccountMeansApproved`).
- `approve` after a send-back of an approved application meets the unique key of the loan account and
  fails as a whole, so such an application never reaches APPROVED again (`ApprovalRuns.LeavingApprovedIsFinal`).
- `configureServicing` is not a transaction: terms that no schedule can be generated from leave the
  account configured behind the error (`LoanState.DoConfigure`).
- Clauses that a reader might expect but that are false of the code have their exact condition: the
  Approver's date versus the account (`LoanHistory.DateDisagreesExactlyWhen`), PAID versus the stored
  amount (`LoanHistory.PaidAgreesExactlyWhen`), moving a course (`Marketplace.WhenMovingACourseFails`), the
  death of a superseded token (`InvitationRuns.TokenDiesExactlyWhenReplaced`), the instant a link expires
  (`InvitationRuns.PendingButNotActive`) and the time of completion under overlapping requests
  (`BankGate.CompletedStaysCompleted`). For the clamp at zero the exact condition is on the generated rows
  (`Schedule.ClampShowsInLastRow`); the only one that can be checked before the call is sufficient, not
  necessary (`Schedule.LargeInstalmentsNeverOvershoot`).

## Services as methods

Every request of the loan's life, of the invitations, of the bank-account gate and of the catalogues is
a method that updates the stored rows in place, with a contract that equates the new rows and the error
with one step of the transition system (`LoanState.Apply`, `Invitations.Apply`, `BankGate.Apply`,
`Marketplace.Apply`), about which the theorems below are proved. Those with something of their own to
say are in the table; the others are:

- `LoanFile.File`, from src/modules/dashboard/approval/dashboard-approval.service.ts: `Resubmit` (152-183),
  `Support` (185-223), `Check` (225-256), `Reject` (307-337), `SendBack` (339-377); from
  src/modules/dashboard/documents/dashboard-documents.service.ts: `CreateAgreement` (405-409), `SendToSign`
  (506-542), `MarkSigned` (544-566), `UploadSigned` (623-659); from
  src/modules/dashboard/disbursement/dashboard-disbursement.service.ts: `AddCondition` (129-147),
  `UpdateCondition` (149-182); from src/modules/dashboard/repayment/dashboard-repayment.service.ts:
  `NotifyBorrower` (369-448), `FlagNeedsReview` (510-541), `ResolveReview` (566-599), `CompleteClearance`
  (653-690).
- `Invitations.Service`, from src/modules/verification/verification-invitation.service.ts: `RevokeLink`
  (115-131), `CreateAndSendLink` (133-201), `MarkVerified` (378-383), and `SubmitForm`, the part of
  src/modules/college/college.service.ts:64-86 that concerns links.
- `BankGate.Application`: `SubmitParentProfile` and `EnsureParentVerification`
  (src/modules/parent-public/parent-public.service.ts:95-139), `SubmitCollegeForm` and `UploadOfferLetter`
  (src/modules/college/college.service.ts:64-146).
- `Marketplace.Store`: `CreateCollege`, `UpdateCollege`, `RemoveCollege`
  (src/modules/marketplace/college.service.ts:216-261), `CreateCourse`, `RemoveCourse`
  (src/modules/marketplace/course.service.ts:158-225).

## Model

| member | source | states |
|---|---|---|
| `Rates.EffectiveRateIsKept` | src/common/utils/interest-rate.util.ts:7-26 | The converted nominal rate, paid at the new cadence, grows money over a year exactly as the original rate compounded at the old one, for every rate and every pair of cadences |
| `Rates.SameGrowthSameRate` | src/common/utils/interest-rate.util.ts:16-25 | At a given cadence two nominal rates with positive period growth and the same annual growth are the same rate, so the conversion has only one possible answer |
| `Rates.ConversionsCompose` | src/common/utils/interest-rate.util.ts:7-26 | Converting from cadence c to p and on to q gives the rate that converting from c to q gives |
| `Rates.ConversionRoundTrips` | src/common/utils/interest-rate.util.ts:7-26 | Converting there and back returns the original rate |
| `Rates.MorePeriodsGrowMore` | src/common/utils/interest-rate.util.ts:16-21 | Compounding one nominal rate over more periods a year strictly raises its effective annual rate |
| `Rates.PayingMoreOftenLowersRate` | src/common/utils/interest-rate.util.ts:7-26 | A positive rate stays positive; the converted rate is lower exactly when payments are more frequent than compounding, and higher exactly when they are rarer |
| `Rates.LessCompoundingLowerRate` | src/common/utils/interest-rate.util.ts:7-26 | For a fixed payment cadence, compounding less often never converts to a higher rate, and to a strictly lower one when the cadences differ |
| `EmiCalculator.InstalmentClearsLoan` | src/modules/utils/emi-calculator.service.ts:20-31 | The unrounded instalment, and no other amount, brings the exact annuity balance to zero after n periods, with or without interest |
| `EmiCalculator.InstalmentExceedsInterest` | src/modules/utils/emi-calculator.service.ts:20-31 | An instalment always exceeds the first period's interest |
| `EmiCalculator.InstalmentsCoverLoan` | src/modules/utils/emi-calculator.service.ts:20-34 | n instalments repay at least the loan, and repay exactly the loan if and only if the rate is zero |
| `EmiCalculator.InstalmentGrowsWithRate` | src/modules/utils/emi-calculator.service.ts:20-41 | A higher rate never lowers the instalment, rounded or not |
| `EmiCalculator.QuoteBalances` | src/modules/utils/emi-calculator.service.ts:33-43 | For whole-paisa loans the rounded total payment is the loan plus the rounded total interest, to the paisa |
| `EmiCalculator.CountIsNearest` | src/modules/utils/emi-calculator.service.ts:17-19 | The instalment count is the tenure in periods to the nearest whole number, half a period counting up |
| `LoanTerms.Frequency.PeriodMonths` | src/modules/dashboard/repayment/dashboard-repayment.service.ts:60-64 | One, three and twelve months a period for the three frequencies, and months per period times instalments per year is twelve |
| `LoanTerms.TermsAreMostAuthoritative` | src/common/utils/loan-principal.util.ts:14-83 | Each term is the first present of its sources: the Credit Manager's column, then for the principal what was disbursed, approved and asked for, for the rate the contract rate, for the compounding cadence the payment cadence |
| `LoanTerms.TenureIsInMonths` | src/common/utils/loan-principal.util.ts:32-43 | The configured tenure wins; otherwise the period counts as months, or twelve times as many if it is in years, and nothing counts as 0 |
| `LoanTerms.YearsAreTwelveMonths` | src/common/utils/loan-principal.util.ts:32-43 | A period in years is the same tenure as twelve times as many months, override or not |
| `Calendar.DaysBetween` | src/modules/dashboard/repayment/dashboard-repayment.service.ts:170-173 | Moving a date k months further moves the day by exactly the total length of those k months, whatever day of the month it is |
| `Calendar.FormulasCountMonths` | src/modules/dashboard/repayment/dashboard-repayment.service.ts:170-173 | The closed day-number formulas of section 21.4.1 of ECMA-262 count exactly the Gregorian months laid end to end, for every year before or after 1970 |
| `Calendar.SetMonthIsMakeDay` | src/modules/dashboard/repayment/dashboard-repayment.service.ts:170-173 | setMonth, as MakeDay of year, month plus offset and day, yields the date the model uses |
| `Calendar.RollOver` | src/modules/dashboard/repayment/dashboard-repayment.service.ts:170-173 | A day the target month lacks becomes one of the first three days of the next month; every other day stays in the target month |
| `Schedule.Amortise` | src/modules/dashboard/repayment/dashboard-repayment.service.ts:145-184 | The schedule loop produces exactly the rows of the recurrence on rounded balances that the lemmas below are about |
| `Schedule.GenerateSchedule` | src/modules/dashboard/repayment/dashboard-repayment.service.ts:78-184 | Fails for a missing application, for terms that are not positive and for a tenure that is not a multiple of the period; otherwise the rows amortise the plan that the terms and the start date determine |
| `Schedule.GeneratedExactlyWhen` | src/modules/dashboard/repayment/dashboard-repayment.service.ts:127-168 | Each refusal exactly when, and otherwise rows that amortise such a plan from the configured start date, or from now |
| `Schedule.PlanFor` | src/modules/dashboard/repayment/dashboard-repayment.service.ts:102-148 | Accepted terms give a plan with their principal, start and grace period, as many periods as fill the tenure, a positive periodic rate whose growth over a year equals that of the contract rate at its own compounding cadence, and the rounded annuity instalment of that very plan |
| `Schedule.PlanIsDetermined` | src/modules/dashboard/repayment/dashboard-repayment.service.ts:119-148 | Which leaves no choice: any two plans with these properties are the same |
| `Schedule.CountsAgree` | src/modules/dashboard/repayment/dashboard-repayment.service.ts:134-140 | The loop's row count equals the instalment count the calculator rounds to, for all three frequencies |
| `Schedule.PrincipalIsRepaidExactly` | src/modules/dashboard/repayment/dashboard-repayment.service.ts:146-184 | The principal components add up to the principal exactly and the last row leaves nothing outstanding |
| `Schedule.RowsBalance` | src/modules/dashboard/repayment/dashboard-repayment.service.ts:159-184 | Rows are numbered from one and bill the instalment; each stored balance is the principal less the principal repaid so far, floored at zero; on every row but the last principal and interest make up the instalment exactly |
| `Schedule.BalanceTracksAnnuity` | src/modules/dashboard/repayment/dashboard-repayment.service.ts:145-167 | Every rounded running balance differs from the exact annuity balance by at most ((1+rate)^k - 1)/rate paisa |
| `Schedule.LastRowNearInstalment` | src/modules/dashboard/repayment/dashboard-repayment.service.ts:159-184 | What the last row collects differs from the instalment by at most that bound at n |
| `Schedule.BillingTracksAccounting` | src/modules/dashboard/repayment/dashboard-repayment.service.ts:146-184 | Total billed differs from total principal plus total interest by at most that bound at n |
| `Schedule.ScheduleTracksQuote` | src/modules/utils/emi-calculator.service.ts:33-43 | The interest the schedule charges differs from the interest the calculator quoted by at most the drift bound plus half a paisa per instalment and one half for the quote |
| `Schedule.QuoteIsForThePlan` | src/modules/dashboard/repayment/dashboard-repayment.service.ts:134-144 | The calculator asked about the plan's own terms quotes that interest, the plan's instalment and as many instalments as there are rows |
| `Schedule.PeriodicRate` | src/common/utils/interest-rate.util.ts:7-26 | The rate the schedule runs at grows money over a year of payments exactly as the contract rate does over a year of its own compounding |
| `Schedule.RowsAreMonotone` | src/modules/dashboard/repayment/dashboard-repayment.service.ts:159-184 | On all rows but the last interest never rises, principal never falls and is never negative, and the stored balance never rises |
| `Schedule.ClampShowsInLastRow` | src/modules/dashboard/repayment/dashboard-repayment.service.ts:164-183 | The running balance goes below zero somewhere, so that the clamp matters, if and only if the last row's principal component is negative |
| `Schedule.LargeInstalmentsNeverOvershoot` | src/modules/dashboard/repayment/dashboard-repayment.service.ts:164-183 | If the discounted instalment is at least the drift bound before the last row, no balance and no principal component is negative |
| `Schedule.TinyLoansOvershoot` | src/modules/dashboard/repayment/dashboard-repayment.service.ts:164-183 | A loan of two paisa over four periods at one percent does overshoot: the stored balance is clamped and the last principal component is negative |
| `Schedule.DueDatesAdvance` | src/modules/dashboard/repayment/dashboard-repayment.service.ts:169-173 | Successive due dates are apart by the total length of the months between them: 28 to 31 days a month, 89 to 92 days a quarter, 365 or 366 a year |
| `Schedule.DueDatesAreSetMonth` | src/modules/dashboard/repayment/dashboard-repayment.service.ts:169-173 | Row k is due on the day MakeDay gives for the start date with grace period and k periods added to its month, at the same time of day |
| `Schedule.DueDatesIncrease` | src/modules/dashboard/repayment/dashboard-repayment.service.ts:169-173 | Due dates are strictly increasing for every start day, grace period and frequency |
| `Schedule.GraceOnlyPostpones` | src/modules/dashboard/repayment/dashboard-repayment.service.ts:166-173 | A grace period changes no balance, interest or principal of any row |
| `Schedule.LessCompoundingNeverCostsMore` | src/modules/dashboard/repayment/dashboard-repayment.service.ts:119-144 | Of two sets of terms that differ only in the compounding cadence, the one compounding less often never has the larger instalment |
| `Entries.PayKeepsCovered` | src/modules/dashboard/repayment/dashboard-repayment.service.ts:956-971 | After any payment an entry marked PAID has a stored amount that covers its instalment |
| `Entries.PaidMeansCoveredExactlyWhen` | src/modules/dashboard/repayment/dashboard-repayment.service.ts:956-971 | After any payment on any instalment, being PAID and having a stored amount that covers it agree if and only if the payment does not fall short by only what the column rounds away |
| `Entries.HalfPaisaShortStaysPartial` | src/modules/dashboard/repayment/dashboard-repayment.service.ts:956-971 | 99.5 paisa paid on an instalment of one rupee: PARTIAL, with a full rupee in the column |
| `Entries.PaidTotalsCover` | src/modules/dashboard/repayment/dashboard-repayment.service.ts:745-776 | If every entry is PAID, the payments recorded add up to at least the instalments |
| `Entries.PaymentMovesTotals` | src/modules/dashboard/repayment/dashboard-repayment.service.ts:745-776 | A payment puts its stored amount in the place of the one before it in what is paid, and leaves what is repayable |
| `Entries.FreshIsAllOutstanding` | src/modules/dashboard/repayment/dashboard-repayment.service.ts:745-776 | On a fresh schedule the reported balance is all that is billed |
| `Entries.StoredPercentIsNearest` | src/modules/dashboard/repayment/dashboard-repayment.service.ts:274-278 | A configured rate is stored to the nearest hundredth of a percent |
| `LoanFile.File.Approve` | src/modules/dashboard/approval/dashboard-approval.service.ts:258-305 | The stage moves, the date is set and the account created together; an account that exists already makes all of it fail |
| `LoanFile.File.FindSignedLoanAgreement` | src/modules/dashboard/disbursement/dashboard-disbursement.service.ts:106-119 | Finds out whether a Loan Agreement is signed or in force |
| `LoanFile.File.ConfirmDisbursement` | src/modules/dashboard/disbursement/dashboard-disbursement.service.ts:184-250 | Does exactly its step: bank account, signature and conditions checked in that order, then the total incremented and the tranche added |
| `LoanFile.File.GenerateSchedule` | src/modules/dashboard/repayment/dashboard-repayment.service.ts:78-209 | Replaces the entries by the generated rows and records the first due date, or changes nothing |
| `LoanFile.File.ConfigureServicing` | src/modules/dashboard/repayment/dashboard-repayment.service.ts:219-366 | Refused requests change nothing; an omitted field keeps its column, a null clears it or, for a column that must not be null, refuses the request; one whose schedule fails leaves the new columns behind |
| `LoanFile.File.CountUnpaid` | src/modules/dashboard/repayment/dashboard-repayment.service.ts:668-670 | The count of unpaid entries is zero if and only if all are PAID |
| `LoanFile.File.MarkPaid` | src/modules/dashboard/repayment/dashboard-repayment.service.ts:956-1003 | Does exactly its step, automatic clearance of an active account included |
| `LoanFile.File.EditApproverDate` | src/modules/applicationInitiator/application-initiator.service.ts:499-507 | The Initiator's edit of the Approver's date, let through only while the application is theirs |
| `LoanFile.File.MarkOverdueEntries` | src/modules/dashboard/repayment/dashboard-repayment.service.ts:1012-1038 | Exactly the unpaid entries due before today become OVERDUE, entry by entry; nothing else changes |
| `LoanInvariants.InvariantAlways` | src/modules/dashboard/repayment/dashboard-repayment.service.ts:219-713 | In every state of every interleaving of requests, the Initiator's edits included, the disbursement, approval, servicing and payment invariants hold together |
| `LoanInvariants.StepKeepsDisbursement` | src/modules/dashboard/disbursement/dashboard-disbursement.service.ts:106-250 | Every request keeps: conditions and tranches only under a signed Loan Agreement, and the disbursed total is the sum of the tranches |
| `LoanInvariants.StepKeepsApproval` | src/modules/dashboard/approval/dashboard-approval.service.ts:152-377 | Every request keeps: APPROVED implies a loan account and an Approver's date, and sentBackByApprover only in SENT_BACK or REJECTED |
| `LoanInvariants.AccountMeansApproved` | src/modules/dashboard/approval/dashboard-approval.service.ts:267-285 | In any run a loan account exists if and only if some earlier approve succeeded |
| `LoanInvariants.ConfiguredMeansDisbursed` | src/modules/dashboard/repayment/dashboard-repayment.service.ts:219-266 | In every reachable state a configured loan was approved by an earlier successful request, has paid out a tranche and has its agreement signed; a notified borrower's loan is configured and has a schedule |
| `LoanInvariants.ScheduleWithinDisbursement` | src/modules/dashboard/repayment/dashboard-repayment.service.ts:251-266 | Once something is disbursed, and no tranche was negative, no schedule that any reachable state can generate repays more principal than was disbursed, override or not |
| `LoanInvariants.NothingIsTakenBack` | src/modules/dashboard/documents/dashboard-documents.service.ts:623-659 | Over any part of a run signatures, tranches, the account and its clearance are never undone |
| `LoanInvariants.ClearedOnlyWhenPaid` | src/modules/dashboard/repayment/dashboard-repayment.service.ts:653-683 | A request that moves a loan to CLEARED leaves every instalment PAID and the reported outstanding balance zero |
| `LoanInvariants.ClearedIsFinal` | src/modules/dashboard/repayment/dashboard-repayment.service.ts:232-236 | No request ever leaves CLEARED |
| `AgreementHistory.SignedExactlyIfRecorded` | src/modules/dashboard/documents/dashboard-documents.service.ts:506-659 | In any run an agreement is signed if and only if a request recorded its signature, pending if and only if it was sent out and not signed since, and a draft otherwise, of the type it was created with |
| `AgreementHistory.MarkedOnlyAfterSending` | src/modules/dashboard/documents/dashboard-documents.service.ts:506-566 | An agreement marked as signed was sent out to be signed before |
| `AgreementHistory.AgreementRequestsSucceedExactlyWhen` | src/modules/dashboard/documents/dashboard-documents.service.ts:506-659 | When sending, marking and uploading succeed, told by the requests before |
| `AgreementHistory.GateOpensExactlyWhenSigned` | src/modules/dashboard/disbursement/dashboard-disbursement.service.ts:106-119 | In any run the disbursement gate is open if and only if a signature on a Loan Agreement was recorded |
| `AgreementHistory.ConditionsAreAsLastSet` | src/modules/dashboard/disbursement/dashboard-disbursement.service.ts:129-182 | In any run a condition has the last status sent for it, PENDING if none was |
| `AgreementHistory.ConfirmSucceedsExactlyWhenReady` | src/modules/dashboard/disbursement/dashboard-disbursement.service.ts:184-206 | A disbursement is confirmed if and only if the bank account is known, a Loan Agreement signed and every condition done |
| `AgreementHistory.TranchesAreConfirmations` | src/modules/dashboard/disbursement/dashboard-disbursement.service.ts:208-250 | In any run the tranches are the amounts confirmed, in order |
| `AgreementHistory.EveryTrancheWasReady` | src/modules/dashboard/disbursement/dashboard-disbursement.service.ts:184-250 | In any run every tranche was confirmed by a request of its own, at a moment when the bank account was known and every condition done, and after a request that recorded the signature on a Loan Agreement |
| `AccountHistory.AccountIsAsTold` | src/modules/dashboard/repayment/dashboard-repayment.service.ts:510-1003 | In any run the account's status, its reviewer, whether it is configured and its borrower notified, and its first due date are what the requests that succeeded say; the last full payment clears an ACTIVE account, and only that |
| `AccountHistory.ReviewRequests` | src/modules/dashboard/repayment/dashboard-repayment.service.ts:510-690 | When flagging, resolving and closing succeed, and what they make of the account |
| `AccountHistory.PaymentRequest` | src/modules/dashboard/repayment/dashboard-repayment.service.ts:956-1003 | A payment clears the account if and only if it is ACTIVE and the payment leaves every instalment paid in full |
| `AccountHistory.ConfigurationAcceptedExactlyWhen` | src/modules/dashboard/repayment/dashboard-repayment.service.ts:219-270 | A configuration is accepted if and only if the account is not cleared, money was disbursed, the override is within it, and no column that must not be null is set to null |
| `AccountHistory.InstalmentsAreAsTold` | src/modules/dashboard/repayment/dashboard-repayment.service.ts:186-188 | In any run the instalments are the rows of the last schedule stored, all of them in order, each with the status the requests since give it, UPCOMING to begin with |
| `AccountHistory.FiguresAreAsTold` | src/modules/dashboard/disbursement/dashboard-disbursement.service.ts:208-220 | In any run the figures are those last edited, and the disbursed total is the sum of what was confirmed |
| `LoanHistory.TermsAreTheLastGiven` | src/modules/dashboard/repayment/dashboard-repayment.service.ts:268-284 | In any run each servicing term is what the last accepted configuration that mentioned it said, as its column stores it, and its default if none did or that was a null; leaving a term out never resets it |
| `LoanHistory.ApprovalKeepsTerms` | src/common/utils/loan-principal.util.ts:60-83 | A newly opened account changes none of the terms a schedule is generated from |
| `LoanHistory.ReviewEndsByAuthority` | src/modules/dashboard/repayment/dashboard-repayment.service.ts:566-599 | A review that ended was resolved by the Credit Manager, an administrator or the assigned role, or ended by closing a fully paid loan; payments never end it |
| `LoanHistory.DateDisagreesExactlyWhen` | src/modules/applicationInitiator/application-initiator.service.ts:158-203 | In any run the Approver's date and the loan account disagree if and only if the last request to write the date was an edit by the Initiator to the contrary |
| `LoanHistory.WhenARequestMakesThemDisagree` | src/modules/applicationInitiator/application-initiator.service.ts:499-507 | From rows that agree, a request makes them disagree if and only if it is such an edit and the Initiator may edit |
| `LoanHistory.DatedWithoutApproval` | src/modules/applicationInitiator/application-initiator.service.ts:158-203 | A fresh application can carry an Approver's date and no account |
| `LoanHistory.UndatedThoughApproved` | src/modules/applicationInitiator/application-initiator.service.ts:158-203 | An application with an account, however far its loan has got, can lose the date once it is sent back to the Initiator |
| `LoanHistory.LastPaymentDecides` | src/modules/dashboard/repayment/dashboard-repayment.service.ts:956-971 | In any run an entry's paid amount is its last payment since the schedule was stored, rounded, and it is PAID if and only if that payment as sent reached the instalment |
| `LoanHistory.PaidAgreesExactlyWhen` | src/modules/dashboard/repayment/dashboard-repayment.service.ts:956-971 | In any run PAID and a covering stored amount agree for an entry if and only if its last payment was not short by only what the column rounds away, and was not missing on an instalment of nothing |
| `LoanHistory.PaidExactlyWhenCovered` | src/modules/dashboard/repayment/dashboard-repayment.service.ts:956-971 | So with payments in whole paisa they always agree on an instalment of at least one paisa |
| `ApprovalRuns.ForwardsAreBounded` | src/modules/dashboard/approval/dashboard-approval.service.ts:37-44 | In any run the successful support, check, approve and resubmit requests number at most three times the send-backs plus one |
| `ApprovalRuns.NoSendBackNoRepeat` | src/modules/dashboard/approval/dashboard-approval.service.ts:152-305 | Without send-backs the successful forward requests are a prefix of support, check, approve |
| `ApprovalRuns.SkipsNeedApprover` | src/modules/dashboard/approval/dashboard-approval.service.ts:185-210 | Skips of the Checker by support or resubmit never outnumber the send-backs an Approver made |
| `ApprovalRuns.ApprovedAtMostOnce` | src/modules/dashboard/approval/dashboard-approval.service.ts:267-285 | Approve succeeds at most once in any run |
| `ApprovalRuns.LeavingApprovedIsFinal` | src/modules/dashboard/approval/dashboard-approval.service.ts:258-367 | An application with a loan account that is not in APPROVED never comes back to it |
| `ApprovalRuns.ResubmitIsTheInitiatorsTurn` | src/modules/applicationInitiator/application-initiator.service.ts:55-69 | Resubmit succeeds exactly for a sent-back application that its Initiator may edit, and ends that right |
| `ApprovalRuns.StageIsAsTold` | src/modules/dashboard/approval/dashboard-approval.service.ts:152-377 | In any run the stage is where the last request that succeeded put it: REJECTED by rejecting, SENT_BACK by sending back, and by support or resubmission CHECKING if and only if an Approver's send-back is still owed its shortcut, else SUPPORTED |
| `ApprovalRuns.ChainSucceedsExactlyFrom` | src/modules/dashboard/approval/dashboard-approval.service.ts:37-44 | From exactly which stages each request of the chain succeeds |
| `ApprovalRuns.EditableExactlyWhen` | src/modules/applicationInitiator/application-initiator.service.ts:55-69 | The Initiator may edit exactly what never left them or may be resubmitted |
| `DailyJob.JobService.RunDailyEmiJob` | src/modules/dashboard/jobs/dashboard-jobs.service.ts:46-65 | One night marks, reminds, accrues and reclassifies in that order: the new rows and the reminders sent are those of the specification, reminders being chosen after marking |
| `DailyJob.JobService.SendOne` | src/modules/dashboard/jobs/dashboard-jobs.service.ts:76-109 | An applicant is sent two text messages if there is a phone number and a notification if there is a user, and nothing otherwise |
| `DailyJob.JobService.SendDueReminders` | src/modules/dashboard/jobs/dashboard-jobs.service.ts:67-111 | The two loops send exactly one reminder on each channel that reaches the applicant, for each dated trigger and each entry due for it |
| `DailyJob.JobService.MarkOverdueEntries` | src/modules/dashboard/repayment/dashboard-repayment.service.ts:1012-1038 | Entry by entry: unpaid ones due on an earlier day become OVERDUE, every other entry and the set of entries stay as they are |
| `DailyJob.JobService.AccruePenalInterest` | src/modules/dashboard/repayment/dashboard-repayment.service.ts:1085-1108 | Entry by entry: an overdue one gains one day of penal interest, rounded by itself; every other entry and the set of entries stay as they are |
| `DailyJob.JobService.ReclassifyLoans` | src/modules/dashboard/repayment/dashboard-repayment.service.ts:1128-1172 | Loan by loan the class follows from the ages of its overdue entries: LOSS from 365 days, at least DOUBTFUL from 180, PASS below 90; nothing else changes |
| `DailyJob.Oldest` | src/modules/dashboard/repayment/dashboard-repayment.service.ts:1131-1135 | The date a loan is classified by belongs to an overdue entry and none is earlier |
| `JobRuns.OneReminderANight` | src/modules/dashboard/jobs/dashboard-jobs.service.ts:67-111 | No entry gets two reminders on one channel in one night, nor reminders of two kinds |
| `JobRuns.EachReminderExactlyOnce` | src/modules/dashboard/repayment/emi-notification-triggers.constant.ts:15-58 | Over consecutive nights an instalment that stays unpaid, whatever is paid on it in part meanwhile, gets a reminder 30, 15, 7, 4, 3, 2 and 1 days before its due day and 1 and 7 days after it, exactly once on each channel that reaches the applicant, and no other; those before the due date only if it is still UPCOMING that night |
| `JobRuns.OffsetsAre` | src/modules/dashboard/repayment/emi-notification-triggers.constant.ts:15-58 | These nine days are all the days there are reminders for |
| `JobRuns.RemindedTheNightAfterDue` | src/modules/dashboard/jobs/dashboard-jobs.service.ts:46-65 | An instalment still unpaid on the night after its due day is marked overdue and reminded of on that very night, on every channel there is |
| `JobRuns.PartPaymentKeepsUnpaid` | src/modules/dashboard/repayment/dashboard-repayment.service.ts:956-971 | A payment in part keeps an instalment unpaid in that sense, on its terms and with its penal interest |
| `JobRuns.PaidIsLeftInPeace` | src/modules/dashboard/repayment/dashboard-repayment.service.ts:1012-1108 | A PAID instalment is changed by no night and reminded of by none |
| `JobRuns.PenalInterestIsSimple` | src/modules/dashboard/repayment/dashboard-repayment.service.ts:1085-1108 | After any number of nights the penal interest is its start plus the rounded daily amount for each night the entry was overdue; payments in part never slow it |
| `JobRuns.NightlyRoundingStaysClose` | src/modules/dashboard/repayment/dashboard-repayment.service.ts:1096-1101 | Which is within half a paisa a night of unrounded simple interest |
| `JobRuns.YearOfPenalInterest` | src/modules/dashboard/repayment/dashboard-repayment.service.ts:1086-1101 | A year of nights adds the instalment times contract rate plus two percent, within half a paisa a night |
| `JobRuns.AgesDecideClass` | src/modules/dashboard/repayment/dashboard-repayment.service.ts:1137-1142 | After a night a loan is LOSS exactly if some instalment is overdue by 365 days, at least DOUBTFUL exactly from 180, PASS exactly if none reaches 90 |
| `JobRuns.ClassifiedByOldest` | src/modules/dashboard/repayment/dashboard-repayment.service.ts:1128-1172 | After a night a loan has the class of its oldest overdue instalment, which is the worst any of them earns, and PASS without one |
| `JobRuns.ClassNeverImproves` | src/modules/dashboard/repayment/dashboard-repayment.service.ts:1128-1172 | While nothing overdue on a loan is paid in full, its class never improves from one night to any later one, whatever is paid in part |
| `Invitations.UniqueCode` | src/modules/verification/verification-invitation.service.ts:104-113 | Returns a drawn code that no link has, and none if and only if all draws are taken |
| `Invitations.Service.GenerateUniqueCode` | src/modules/verification/verification-invitation.service.ts:104-113 | The loop of five attempts finds the first free code drawn |
| `Invitations.Service.Send` | src/modules/verification/verification-invitation.service.ts:204-231 | Does exactly its step: ownership, conflict on the same address, revocation on another, then creation |
| `Invitations.Service.Resend` | src/modules/verification/verification-invitation.service.ts:234-258 | Does exactly its step, also when a code runs out after the old link was revoked |
| `Invitations.Service.ResolveInvitation` | src/modules/verification/verification-invitation.service.ts:274-344 | Finds the link by digest and then by raw token, refuses in the order of the code, and records the first access |
| `InvitationRuns.ApplyEvolves` | src/modules/verification/verification-invitation.service.ts:204-383 | Any request adds at most one link and moves each other one only from SENT to OPENED, to VERIFIED from any status but REVOKED, or to REVOKED from SENT or OPENED, leaving its identity and expiry alone |
| `InvitationRuns.RequestKeepsSound` | src/modules/verification/verification-invitation.service.ts:204-344 | Every request keeps: only the newest link of an application and recipient is active, tokens lead to one link, codes are distinct |
| `InvitationRuns.AtMostOneActive` | src/modules/verification/verification-invitation.service.ts:57-74 | In every run, at every time from the last request on, an application has at most one active link per recipient, and it is the newest |
| `InvitationRuns.RevokedForGood` | src/modules/verification/verification-invitation.service.ts:274-313 | A revoked link stays revoked for the rest of the run and its token never resolves again, by digest or by raw token, for anyone |
| `InvitationRuns.SupersededNeverWorks` | src/modules/verification/verification-invitation.service.ts:204-258 | Resending, or sending to another address, kills the pending link's token for the rest of the run, whether or not the new mail goes out |
| `InvitationRuns.ReplacementRevokesExactly` | src/modules/verification/verification-invitation.service.ts:204-258 | What is sent revokes a link if and only if that is the newest SENT or OPENED one of the recipient and, for a new address, unexpired |
| `InvitationRuns.TokenDiesExactlyWhenReplaced` | src/modules/verification/verification-invitation.service.ts:204-313 | A token that works when something new is sent stops working if and only if its link is so replaced |
| `InvitationRuns.VerifiedKeepsWorking` | src/modules/verification/verification-invitation.service.ts:371-383 | The token of a link that is VERIFIED or whose mail failed works until it expires, over any run, whatever is sent anew |
| `InvitationRuns.OnlyNewestOpens` | src/modules/verification/verification-invitation.service.ts:274-313 | A token that opens a pending invitation is the newest invitation's, except in the instant an older one expires |
| `InvitationRuns.PendingButNotActive` | src/modules/verification/verification-invitation.service.ts:57-97 | A link is shown as pending or opened without being active if and only if this is the instant it expires |
| `InvitationRuns.BothOpenAtExpiry` | src/modules/verification/verification-invitation.service.ts:57-67 | Sending in that instant leaves the old token and the new one both working |
| `InvitationRuns.SendingTwice` | src/modules/verification/verification-invitation.service.ts:204-231 | A delivered invitation makes a second one to the same address fail as already pending exactly until it expires |
| `InvitationRuns.VerifiedOnlyAfterOpening` | src/modules/verification/verification-invitation.service.ts:327-383 | In every run a verified link was created, first opened and verified in that order |
| `InvitationHistory.OpensExactlyWhen` | src/modules/verification/verification-invitation.service.ts:274-326 | A token opens its link if and only if that is for this recipient, not revoked and not past its expiry, and, if it was mailed to an address, the visitor gives that address up to case and surrounding space |
| `InvitationHistory.OpensOnlyItsLink` | src/modules/verification/verification-invitation.service.ts:279-299 | A token opens no link but the one it was mailed in |
| `InvitationHistory.MismatchExactlyWhen` | src/modules/verification/verification-invitation.service.ts:314-326 | On a link that is otherwise open the answer is a mismatch if and only if the address given is another |
| `InvitationHistory.RefusalsExactlyWhen` | src/modules/verification/verification-invitation.service.ts:300-310 | The other refusals, each exactly when |
| `InvitationHistory.StrangersChangeNothing` | src/modules/verification/verification-invitation.service.ts:314-326 | A visit or submission with another address changes no link |
| `InvitationHistory.ViewTellsWhetherItOpens` | src/modules/verification/verification-invitation.service.ts:76-102 | What the initiator is shown agrees with what the recipient meets: pending and opened links open, expired and revoked ones do not |
| `InvitationHistory.SendSucceedsExactlyWhen` | src/modules/verification/verification-invitation.service.ts:204-231 | Sending succeeds if and only if it is the owner's, nothing is pending for the address, and one of the codes drawn is free |
| `InvitationHistory.ResendSucceedsExactlyWhen` | src/modules/verification/verification-invitation.service.ts:234-258 | Resending succeeds if and only if it is the owner's, something was sent to an address before, and one of the codes drawn is free |
| `InvitationHistory.OnlyOwnersSend` | src/modules/verification/verification-invitation.service.ts:42-51 | Sending and resending by others change nothing |
| `InvitationHistory.EveryLinkWasMailed` | src/modules/verification/verification-invitation.service.ts:133-258 | In any run every link was mailed by a request of the application's owner and carries what that says: recipient, token, the first free of the codes drawn, times, and the address given or, on resending, the one before |
| `InvitationHistory.StatusIsAsTold` | src/modules/verification/verification-invitation.service.ts:112-383 | In any run a link's status is what the requests make of it: VERIFIED by a submission it let in, REVOKED by being replaced, OPENED by a visit it let in, FAILED if its mail was not delivered |
| `InvitationHistory.VerifiedByItsAddressee` | src/modules/verification/verification-invitation.service.ts:314-383 | In any run a verified link was submitted before its expiry with its own token, for its recipient, by someone who gave the address it was mailed to |
| `BankGate.Application.EnsureRequirementIfBothVerified` | src/modules/bank-account/bank-account-opening.service.ts:54-79 | Creates the requirement exactly if it is missing, the parent has submitted and the college confirms |
| `BankGate.Application.CompleteForApplication` | src/modules/bank-account/bank-account-opening.service.ts:112-143 | Completes the requirement once; refused without one |
| `BankGate.RequestKeepsSound` | src/modules/bank-account/bank-account-opening.service.ts:54-143 | Every request keeps: both sides done implies the requirement, which implies that the parent submitted; completion and its time do not change |
| `BankGate.CompletionIsFinal` | src/modules/bank-account/bank-account-opening.service.ts:112-143 | The same over any run of requests |
| `BankGate.RowsAreAsTold` | src/modules/bank-account/bank-account-opening.service.ts:54-143 | After any requests the parent's row, the college's row and the requirement are what those about each say: an upload leaves a confirmation standing, the last submission confirms or not, and the requirement comes with the first submission that finds both sides done |
| `BankGate.NoRequirementIsLost` | src/modules/bank-account/bank-account-opening.service.ts:46-79 | However the statements of any number of requests interleave, while both sides are done and the requirement is missing some request is still about to create it |
| `BankGate.QuietMeansRequired` | src/modules/bank-account/bank-account-opening.service.ts:46-79 | So whenever no request is in progress, both sides done means that the requirement exists |
| `BankGate.NobodyIsStuck` | src/modules/bank-account/bank-account-opening.service.ts:112-143 | Then completing it succeeds and puts the application into the Initiator's queue |
| `BankGate.QueuedMeansAllThreeGates` | src/modules/applicationInitiator/application-initiator.service.ts:341-362 | A student's application in the queue has a parent who submitted, a college that had confirmed at some point of the run and a completed requirement, under every interleaving |
| `BankGate.WithdrawalKeepsQueued` | src/modules/college/college.service.ts:64-80 | A college that takes its confirmation back does not take the application out of the queue |
| `BankGate.CompletedStaysCompleted` | src/modules/bank-account/bank-account-opening.service.ts:114-133 | Under overlap a requirement stays completed, and its completion time moves exactly when a request that had read it as pending writes late |
| `BankGate.UninterruptedIsAtomic` | src/modules/bank-account/bank-account-opening.service.ts:54-143 | Run without interruption, its reads in any order, a request does what the sequential model says |
| `Csv.ReadsEncoded` | src/modules/admin/admin.service.ts:155-157 | A quoted field with its quotes doubled reads back as the field, whatever it contains |
| `Csv.ExportReadsBack` | src/modules/admin/admin.service.ts:127-161 | For every list of non-empty rows of arbitrary strings, reading the export by section 2 of RFC 4180, with line feeds as record breaks, returns the header and exactly those rows |
| `Csv.ExportIsInjective` | src/modules/admin/admin.service.ts:127-161 | No two lists of rows have the same export |
| `Csv.ApplicationExportReadsBack` | src/modules/admin/admin.service.ts:127-161 | The application export with its own header reads back |
| `Csv.AuditExportReadsBack` | src/modules/dashboard/audit/dashboard-audit.service.ts:84-108 | The audit export with its own header reads back, whatever the JSON payloads contain |
| `Slugs.SlugifyJoinsWords` | src/common/utils/slugify.util.ts:4-10 | The slug of a name is its maximal runs of letters and digits, lower-cased, joined by single hyphens, and is always a proper slug |
| `Slugs.SlugsAreTheFixedPoints` | src/common/utils/slugify.util.ts:4-10 | slugify leaves a string alone if and only if it is a proper slug (possibly empty), so proper slugs are exactly its image; it is idempotent |
| `Slugs.SlugIsItsWords` | src/common/utils/slugify.util.ts:4-10 | Every proper slug is its words joined by single hyphens |
| `Slugs.WordsOfJoined` | src/common/utils/slugify.util.ts:4-10 | Words joined by hyphens are read off again, whatever the words |
| `Slugs.SameSlugSameWords` | src/common/utils/slugify.util.ts:4-10 | Two names get the same slug if and only if they have the same words up to case |
| `Slugs.LowerByPlace` | src/common/utils/slugify.util.ts:6-6 | On ASCII text lower-casing moves the letters from A to Z by 32 places and nothing else |
| `Slugs.LowerLeavesNoCapital` | src/common/utils/slugify.util.ts:6-6 | No text keeps a capital |
| `Slugs.CaseDoesNotMatter` | src/common/utils/slugify.util.ts:4-10 | ASCII names that differ only in the case of letters get the same slug |
| `Slugs.SlugKeepsLettersAndDigits` | src/common/utils/slugify.util.ts:4-10 | A slug keeps every ASCII letter and digit of its name, in order and in lower case, and adds none |
| `Slugs.KelvinAndDottedI` | src/common/utils/slugify.util.ts:4-10 | The two characters beyond ASCII whose lower case has a letter count as that letter |
| `Slugs.TrimTakesSpaceOffTheEnds` | src/common/utils/slugify.util.ts:7-7 | Trimming takes the white space off both ends, all of it and nothing else |
| `Slugs.DigitsAreDecimal` | src/modules/marketplace/college.service.ts:211-212 | A suffix is written in decimal without leading zeros |
| `Slugs.DigitsAreInjective` | src/modules/marketplace/college.service.ts:211-212 | Different suffixes are written differently |
| `Slugs.TakenCandidates` | src/modules/marketplace/college.service.ts:199-214 | At most as many candidates are taken as there are slugs stored |
| `Slugs.FreeSuffix` | src/modules/marketplace/college.service.ts:199-214 | The suffix found is free, no smaller one is, and it is at most one more than the number of slugs stored |
| `Slugs.UniqueSlug` | src/modules/marketplace/college.service.ts:199-214 | The loop ends, with the candidate of the least free suffix |
| `Marketplace.Store.UpdateCourse` | src/modules/marketplace/course.service.ts:182-209 | Recomputes the slug in the target college on a rename; otherwise keeps it, and the stored constraint may refuse the move |
| `Marketplace.SlugsStayDistinct` | src/modules/marketplace/college.service.ts:199-261 | After any run of creations, updates and removals college slugs are proper and pairwise distinct, and course slugs within each college |
| `Marketplace.CollegesAreAsNamed` | src/modules/marketplace/college.service.ts:199-261 | After any run a college has its last name, a slug of the last name that was a real renaming, plain or with a suffix from -2 on, and is listed as last said |
| `Marketplace.CoursesAreAsNamed` | src/modules/marketplace/course.service.ts:135-209 | A course added or updated has what the request said, and on a real renaming a slug of its new name |
| `Marketplace.CollegesTakeTheFirstFreeSlug` | src/modules/marketplace/college.service.ts:199-261 | A college added or really renamed gets the first of the candidates for its name that no other college has, its own old slug not counted |
| `Marketplace.CoursesTakeTheFirstFreeSlug` | src/modules/marketplace/course.service.ts:135-209 | A course gets the first candidate that no other course of the college it is added or moved to has |
| `Marketplace.CatalogueRefusesExactlyWhen` | src/modules/marketplace/course.service.ts:158-225 | When each request on the catalogues is refused |
| `Marketplace.AddressesLast` | src/modules/marketplace/college.service.ts:228-245 | Only a renaming update of a college changes that college's slug, over any run |
| `Marketplace.WhenMovingACourseFails` | src/modules/marketplace/course.service.ts:182-209 | An update of a course violates the unique key if and only if it moves the course without renaming it to a college where another course has its slug |

## Left out

- Controllers, DTO validation, guards, response wrapping and module wiring: framework plumbing.
- E-mail, SMS, WhatsApp, file storage, hashing, tokens and sign-in: foreign calls, reduced to parameters where their outcome matters.
- Audit-log rows, sign-off and attestation columns other than the Approver's date, reasons and timestamps of rejection, send-back and review, and notification texts: written but read by nothing modelled here.
- Conversion between the Nepali and the Gregorian calendar: done by a library that is not part of this model.
- Contents of agreements, letters and certificates, the document vault, parent profiles and insurance: field copying. Of agreements only type and status are modelled; `createAgreement` is its final creation of a draft, and `forwardAgreement`, which writes other columns, is left out.
- Credit scoring, eligibility, pagination, tracker timelines, permission tables and blacklist merging: finite tables and single case splits that would add only easy members.
- The overdue list's buckets: below a day's resolution they leave gaps and are not a partition.
- IEEE-754 rounding, time zones and daylight saving.
- Failures in the middle of a request, such as a lost database connection, except where a request is modelled as failing after a partial write.
- Rates.EffectiveRateIsKept: requires the root as a value, because its existence needs the completeness of the reals; likewise every statement with a `root` parameter.
- EmiCalculator.QuoteBalances: says nothing when the tenure rounds to no instalment at all, where the original answers with non-finite numbers.
- Schedule.LargeInstalmentsNeverOvershoot: a sufficient condition on the inputs; the exact condition, Schedule.ClampShowsInLastRow, is on the resulting rows.
- Tranche amounts of fractions of a paisa, which the columns would round one by one. Tenures are whole months.
- LoanInvariants.ScheduleWithinDisbursement: assumes that no tranche was booked with a negative amount, which the service itself does not check.
- LoanHistory.PaidExactlyWhenCovered: assumes payments in whole paisa and a positive instalment; LoanHistory.PaidAgreesExactlyWhen covers all payments and instalments.
- JobRuns.EachReminderExactlyOnce: assumes one job a day; a missed day means a missed reminder, which the job does not make up for.
- DailyJob.JobService.SendDueReminders: a reminder is sent when its message is handed over; whether it arrives, and the delivery status stored with the notification, is left out.
- Lower-casing of letters beyond A to Z in names and addresses: what they become is never a letter from a to z or a digit, except for the two characters `Slugs.LowerChar` treats, so slugs do not depend on it; in addresses they are kept as they are.
- Links from before digests: may be in the table a run starts from, with a raw token and no digest, as long as that table is sound (InvitationRuns.Sound); InvitationRuns.VerifiedOnlyAfterOpening starts from an empty table.
- Creation and expiry of invitations interleaved within one request, such as a revocation between resolving a link and marking it verified.
- The other columns of colleges and courses, the marketplace's search and filters.
