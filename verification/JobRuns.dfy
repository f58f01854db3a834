/**
 The nightly job over consecutive days, with any other requests in between
 (src/modules/dashboard/jobs/dashboard-jobs.service.ts). tables[i] holds the rows just before
 the job of day first + i; what happens between two jobs is arbitrary but for what a lemma says
 stays true of an entry or a loan.
 */
module JobRuns {
  import opened Wrappers
  import opened RealMath
  import opened Calendar
  import opened Entries
  import opened Schedule
  import opened DailyJob

  /** One job per day, in order, none missed. */
  ghost predicate Nights(tables: seq<Table>, times: seq<int>, first: int) {
    && |tables| == |times|
    && forall i :: 0 <= i < |tables| ==> Consistent(tables[i]) && Day(times[i]) == first + i
  }

  /** Not paid in full; and OVERDUE only if the due day has passed, as the job leaves it. */
  ghost predicate Unpaid(e: Entry, today: int) {
    e.status != Paid && (e.status == Overdue ==> Day(e.row.dueDate) < today)
  }

  /**
   The entry is there on every night, on the same terms, and never paid in full. It may be paid in
   part, or more than once, between any two nights.
   */
  ghost predicate StaysUnpaid(tables: seq<Table>, first: int, id: Id, row: Row) {
    forall i :: 0 <= i < |tables| ==>
      id in tables[i].records && tables[i].records[id].entry.row == row && Unpaid(tables[i].records[id].entry, first + i)
  }

  /** A payment in part keeps an entry unpaid, on its terms and with its penal interest. */
  lemma PartPaymentKeepsUnpaid(e: Entry, amount: real, today: int)
    requires Unpaid(e, today) && amount < e.row.emiAmount as real
    ensures var p := Pay(e, amount);
            Unpaid(p, today) && p.row == e.row && p.penalInterestAccrued == e.penalInterestAccrued
  {
  }

  lemma MarkingByDay(e: Entry, today: int)
    requires Unpaid(e, today)
    ensures MarkOverdue(e, StartOfDay(today)) ==
              e.(status := if Day(e.row.dueDate) < today then Overdue else e.status)
  {
    DayStarts(e.row.dueDate, today);
  }

  lemma DayStarts(time: int, day: int)
    ensures time < StartOfDay(day) <==> Day(time) < day
    ensures StartOfDay(day) <= time < StartOfDay(day) + MS_PER_DAY <==> Day(time) == day
  {
  }

  /** What one night does to one entry. */
  lemma NightOnEntry(t: Table, now: int, id: Id)
    requires Consistent(t) && id in t.records
    ensures var r := t.records[id];
            var marked := MarkOverdue(r.entry, StartOfDay(Day(now)));
            && MarkedOverdue(t.records, now)[id].entry == marked
            && After(t, now).records[id] ==
                 r.(entry := Accrue(marked, t.apps[r.applicationId].interestRate))
  {
  }

  /** What one night does to an unpaid entry depends on the day alone. */
  lemma NightOnUnpaid(tables: seq<Table>, times: seq<int>, first: int, id: Id, row: Row, i: nat)
    requires Nights(tables, times, first) && StaysUnpaid(tables, first, id, row) && i < |tables|
    ensures var e := tables[i].records[id].entry;
            var marked := MarkOverdue(e, StartOfDay(first + i));
            && MarkedOverdue(tables[i].records, times[i])[id].entry == marked
            && marked == e.(status := if Day(row.dueDate) < first + i then Overdue else e.status)
  {
    NightOnEntry(tables[i], times[i], id);
    MarkingByDay(tables[i].records[id].entry, first + i);
  }

  // ---- Reminders ---------------------------------------------------------------------------

  predicate IsOffset(offset: int) {
    exists k :: 0 <= k < |TRIGGERS| && TRIGGERS[k].offsetDays == Some(offset)
  }

  /** The days the reminders are for: one month to one day ahead, and one and seven days late. */
  lemma OffsetsAre(offset: int)
    ensures IsOffset(offset) <==> offset in {-30, -15, -7, -4, -3, -2, -1, 1, 7}
  {
    assert TRIGGERS[0].offsetDays == Some(-30) && TRIGGERS[1].offsetDays == Some(-15) && TRIGGERS[2].offsetDays == Some(-7);
    assert TRIGGERS[3].offsetDays == Some(-4) && TRIGGERS[4].offsetDays == Some(-3) && TRIGGERS[5].offsetDays == Some(-2);
    assert TRIGGERS[6].offsetDays == Some(-1) && TRIGGERS[7].offsetDays == Some(1) && TRIGGERS[8].offsetDays == Some(7);
    assert TRIGGERS[9].offsetDays == None;
  }

  lemma OffsetsDiffer(i: nat, j: nat)
    requires i < j < |TRIGGERS|
    ensures TRIGGERS[i].offsetDays != TRIGGERS[j].offsetDays
  {
  }

  ghost predicate SentBy(records: map<Id, Record>, now: int, offset: int, id: Id, k: nat)
    requires k <= |TRIGGERS|
  {
    && (exists j :: 0 <= j < k && TRIGGERS[j].offsetDays == Some(offset))
    && id in records && DueForReminder(records[id].entry, offset, now)
  }

  lemma {:induction false} CountUpTo(t: Table, now: int, offset: int, id: Id, channel: Channel, k: nat)
    requires k <= |TRIGGERS|
    ensures RemindersUpTo(t, now, k)[Reminder(offset, id, channel)] ==
            if SentBy(t.records, now, offset, id, k) && Reaches(t, id, channel) then 1 else 0
  {
    if k > 0 {
      var last := TRIGGERS[k - 1].offsetDays;
      CountUpTo(t, now, offset, id, channel, k - 1);
      NextTrigger(t, now, k - 1);
      SentByOneMore(t.records, now, offset, id, k - 1);
      if last.Some? {
        CountFor(t, last.value, EntriesDue(t.records, last.value, now), offset, id, channel);
      }
    }
  }

  /** No two triggers are for the same day, so one more counts only if none before it did. */
  lemma SentByOneMore(records: map<Id, Record>, now: int, offset: int, id: Id, k: nat)
    requires k < |TRIGGERS|
    ensures var matches := TRIGGERS[k].offsetDays == Some(offset) && id in EntriesDue(records, offset, now);
            && !(SentBy(records, now, offset, id, k) && matches)
            && (SentBy(records, now, offset, id, k + 1) <==> SentBy(records, now, offset, id, k) || matches)
  {
    forall j | 0 <= j < k ensures TRIGGERS[j].offsetDays != TRIGGERS[k].offsetDays {
      OffsetsDiffer(j, k);
    }
  }

  lemma CountFor(t: Table, sent: int, ids: set<Id>, offset: int, id: Id, channel: Channel)
    ensures RemindersFor(t, sent, ids)[Reminder(offset, id, channel)] ==
            if sent == offset && id in ids && Reaches(t, id, channel) then 1 else 0
  {
  }

  /** The rows the reminders of a night are chosen from. */
  function Marked(t: Table, now: int): Table {
    t.(records := MarkedOverdue(t.records, now))
  }

  /** In one night an entry gets at most one reminder a channel, and all of the same kind. */
  lemma OneReminderANight(t: Table, now: int, offset: int, other: int, id: Id, channel: Channel, second: Channel)
    ensures Sent(t, now)[Reminder(offset, id, channel)] <= 1
    ensures Sent(t, now)[Reminder(offset, id, channel)] == 1 && Sent(t, now)[Reminder(other, id, second)] == 1
            ==> offset == other
  {
    var marked := Marked(t, now);
    CountUpTo(marked, now, offset, id, channel, |TRIGGERS|);
    CountUpTo(marked, now, other, id, second, |TRIGGERS|);
    if id in marked.records {
      DayStarts(marked.records[id].entry.row.dueDate, Day(now) - offset);
      DayStarts(marked.records[id].entry.row.dueDate, Day(now) - other);
    }
  }

  /** A PAID instalment is left in peace: nothing about it changes and nobody is reminded of it. */
  lemma PaidIsLeftInPeace(t: Table, now: int, id: Id, offset: int, channel: Channel)
    requires Consistent(t) && id in t.records && t.records[id].entry.status == Paid
    ensures After(t, now).records[id] == t.records[id] && Sent(t, now)[Reminder(offset, id, channel)] == 0
  {
    NightOnEntry(t, now, id);
    CountUpTo(Marked(t, now), now, offset, id, channel, |TRIGGERS|);
  }

  /** How often a reminder was sent in the first n nights. */
  function TimesSent(tables: seq<Table>, times: seq<int>, r: Reminder, n: nat): nat
    requires n <= |tables| == |times|
  {
    if n == 0 then 0 else TimesSent(tables, times, r, n - 1) + Sent(tables[n - 1], times[n - 1])[r]
  }

  /** There is a phone for a text message, an account for a notification. */
  predicate Reachable(t: Table, id: Id, channel: Channel) {
    && id in t.records && t.records[id].applicationId in t.apps
    && var app := t.apps[t.records[id].applicationId];
       if channel == Notification then app.hasUser else app.hasPhone
  }

  /** On its night a reminder goes out if the applicant can be reached and, before the due date, the
      entry is still UPCOMING: a payment in part forfeits those. */
  predicate Expects(t: Table, id: Id, offset: int, channel: Channel)
    requires id in t.records
  {
    && offset in {-30, -15, -7, -4, -3, -2, -1, 1, 7}
    && Reachable(t, id, channel) && (0 < offset || t.records[id].entry.status == Upcoming)
  }

  lemma ReminderOnNight(tables: seq<Table>, times: seq<int>, first: int, id: Id, row: Row, offset: int, channel: Channel,
                        i: nat)
    requires Nights(tables, times, first) && StaysUnpaid(tables, first, id, row) && i < |tables|
    ensures Sent(tables[i], times[i])[Reminder(offset, id, channel)] ==
            if first + i == Day(row.dueDate) + offset && Expects(tables[i], id, offset, channel) then 1 else 0
  {
    NightOnUnpaid(tables, times, first, id, row, i);
    OffsetsAre(offset);
    DayStarts(row.dueDate, first + i - offset);
    CountUpTo(Marked(tables[i], times[i]), times[i], offset, id, channel, |TRIGGERS|);
  }

  /**
   An instalment that stays unpaid, paid in part or not, gets each dated reminder exactly once on each
   channel, on the one night its date matches, if the run reaches that night and the reminder is
   expected then, and never otherwise; and there are reminders for no other days.
   */
  lemma {:induction false} EachReminderExactlyOnce(tables: seq<Table>, times: seq<int>, first: int, id: Id, row: Row,
                                                  offset: int, channel: Channel, n: nat)
    requires Nights(tables, times, first) && StaysUnpaid(tables, first, id, row) && n <= |tables|
    ensures var night := Day(row.dueDate) + offset - first;
            TimesSent(tables, times, Reminder(offset, id, channel), n) ==
            if 0 <= night < n && Expects(tables[night], id, offset, channel) then 1 else 0
  {
    if n > 0 {
      EachReminderExactlyOnce(tables, times, first, id, row, offset, channel, n - 1);
      ReminderOnNight(tables, times, first, id, row, offset, channel, n - 1);
    }
  }

  /** What the order of the job is for: an instalment still unpaid on the night after its due day is
      marked overdue and reminded of on that very night. */
  lemma RemindedTheNightAfterDue(t: Table, now: int, id: Id)
    requires Consistent(t) && id in t.records && t.records[id].entry.status != Paid
    requires Day(now) == Day(t.records[id].entry.row.dueDate) + 1
    ensures var app := t.apps[t.records[id].applicationId];
            && After(t, now).records[id].entry.status == Overdue
            && Sent(t, now)[Reminder(1, id, Sms)] == (if app.hasPhone then 1 else 0)
            && Sent(t, now)[Reminder(1, id, WhatsApp)] == (if app.hasPhone then 1 else 0)
            && Sent(t, now)[Reminder(1, id, Notification)] == (if app.hasUser then 1 else 0)
  {
    NightOnEntry(t, now, id);
    OffsetsAre(1);
    DayStarts(t.records[id].entry.row.dueDate, Day(now));
    DayStarts(t.records[id].entry.row.dueDate, Day(now) - 1);
    CountUpTo(Marked(t, now), now, 1, id, Sms, |TRIGGERS|);
    CountUpTo(Marked(t, now), now, 1, id, WhatsApp, |TRIGGERS|);
    CountUpTo(Marked(t, now), now, 1, id, Notification, |TRIGGERS|);
  }

  // ---- Penal interest -------------------------------------------------------------------------

  /** Nights up to and including night i on which an entry due on dueDay is overdue. */
  function OverdueNights(first: int, dueDay: int, i: nat): nat {
    Max(0, first + i - Max(dueDay, first - 1))
  }

  /** Payments between two nights leave the penal interest as it is. */
  ghost predicate PenalKept(tables: seq<Table>, times: seq<int>, first: int, id: Id)
    requires Nights(tables, times, first)
    requires forall i :: 0 <= i < |tables| ==> id in tables[i].records
  {
    forall i :: 0 < i < |tables| ==>
      tables[i].records[id].entry.penalInterestAccrued
      == After(tables[i - 1], times[i - 1]).records[id].entry.penalInterestAccrued
  }

  ghost predicate RateKept(tables: seq<Table>, times: seq<int>, first: int, id: Id, rate: Option<real>)
    requires Nights(tables, times, first)
    requires forall i :: 0 <= i < |tables| ==> id in tables[i].records
  {
    forall i :: 0 <= i < |tables| ==> tables[i].apps[tables[i].records[id].applicationId].interestRate == rate
  }

  lemma PenalOnNight(tables: seq<Table>, times: seq<int>, first: int, id: Id, row: Row, i: nat)
    requires Nights(tables, times, first) && StaysUnpaid(tables, first, id, row) && i < |tables|
    ensures var rate := tables[i].apps[tables[i].records[id].applicationId].interestRate;
            After(tables[i], times[i]).records[id].entry.penalInterestAccrued ==
              tables[i].records[id].entry.penalInterestAccrued +
              if Day(row.dueDate) < first + i then Round(DailyPenalInterest(row.emiAmount, rate)) else 0
  {
    NightOnUnpaid(tables, times, first, id, row, i);
    NightOnEntry(tables[i], times[i], id);
    var entry := tables[i].records[id].entry;
    AccrueByRounded(MarkOverdue(entry, StartOfDay(first + i)), tables[i].apps[tables[i].records[id].applicationId].interestRate);
  }

  lemma OneMoreNight(first: int, dueDay: int, i: nat, amount: int)
    ensures OverdueNights(first, dueDay, i) * amount ==
            (if i == 0 then 0 else OverdueNights(first, dueDay, i - 1) * amount) + (if dueDay < first + i then amount else 0)
  {
    var before := if i == 0 then 0 else OverdueNights(first, dueDay, i - 1);
    assert OverdueNights(first, dueDay, i) == before + if dueDay < first + i then 1 else 0;
    assert (before + 1) * amount == before * amount + amount;
  }

  /**
   Penal interest grows by exactly the rounded daily amount for every night the entry is overdue, and
   payments in part never slow it down.
   */
  lemma {:induction false} PenalInterestIsSimple(tables: seq<Table>, times: seq<int>, first: int, id: Id, row: Row,
                                                rate: Option<real>, i: nat)
    requires Nights(tables, times, first) && StaysUnpaid(tables, first, id, row) && i < |tables|
    requires PenalKept(tables, times, first, id) && RateKept(tables, times, first, id, rate)
    ensures After(tables[i], times[i]).records[id].entry.penalInterestAccrued ==
              tables[0].records[id].entry.penalInterestAccrued +
              OverdueNights(first, Day(row.dueDate), i) * Round(DailyPenalInterest(row.emiAmount, rate))
  {
    PenalOnNight(tables, times, first, id, row, i);
    OneMoreNight(first, Day(row.dueDate), i, Round(DailyPenalInterest(row.emiAmount, rate)));
    if i > 0 {
      PenalInterestIsSimple(tables, times, first, id, row, rate, i - 1);
    }
  }

  /** Rounding every night keeps within half a paisa a night of the unrounded simple interest. */
  lemma NightlyRoundingStaysClose(nights: nat, emiAmount: int, interestRate: Option<real>)
    ensures var daily := DailyPenalInterest(emiAmount, interestRate);
            Abs((nights * Round(daily)) as real - nights as real * daily) <= nights as real * 0.5
  {
    RoundedTimes(nights, DailyPenalInterest(emiAmount, interestRate));
  }

  /** So a year of penal interest is two percent above the contract rate, give or take half a paisa a day. */
  lemma YearOfPenalInterest(emiAmount: int, interestRate: Option<real>)
    ensures var percent := interestRate.GetOr(0.0) + 2.0;
            Abs((365 * Round(DailyPenalInterest(emiAmount, interestRate))) as real - emiAmount as real * percent / 100.0)
            <= 182.5
  {
    var daily := DailyPenalInterest(emiAmount, interestRate);
    NightlyRoundingStaysClose(365, emiAmount, interestRate);
    assert 365.0 * daily == emiAmount as real * (interestRate.GetOr(0.0) + 2.0) / 100.0;
  }

  // ---- Classification ---------------------------------------------------------------------------

  function Severity(c: Classification): nat {
    match c case Pass => 0 case Substandard => 1 case Doubtful => 2 case Loss => 3
  }

  /** The class is the worst any overdue instalment of the loan earns, PASS without one. */
  ghost predicate ClassifiedByWorst(t: Table, now: int, app: Id)
    requires app in t.apps
  {
    var c := t.apps[app].classification;
    && (forall id :: OverdueOf(t.records, app, id) ==> Severity(Classify(DaysOverdue(t.records[id].entry, now))) <= Severity(c))
    && (c == Pass || exists id :: OverdueOf(t.records, app, id) && c == Classify(DaysOverdue(t.records[id].entry, now)))
  }

  /** After a night a loan is classified by its oldest overdue instalment, which is the worst. */
  lemma ClassifiedByOldest(t: Table, now: int, app: Id)
    requires Consistent(t) && app in t.apps
    ensures ClassifiedByWorst(After(t, now), now, app)
  {
    OldestIsWorst(After(t, now), now, app);
  }

  lemma OldestIsWorst(u: Table, now: int, app: Id)
    requires app in u.apps && u.apps[app].classification == ClassificationOf(u.records, app, now)
    ensures ClassifiedByWorst(u, now, app)
  {
    var dates := OverdueDates(u.records, app);
    forall id | OverdueOf(u.records, app, id)
      ensures Severity(Classify(DaysOverdue(u.records[id].entry, now))) <= Severity(u.apps[app].classification)
    {
      assert u.records[id].entry.row.dueDate in dates;
      ClassifyIsMonotone(now, u.records[id].entry.row.dueDate, now, Oldest(dates));
    }
    if dates != {} {
      var oldest := Oldest(dates);
      var id :| id in u.records && OverdueOf(u.records, app, id) && u.records[id].entry.row.dueDate == oldest;
      assert u.apps[app].classification == Classify(DaysOverdue(u.records[id].entry, now));
    }
  }

  /** In terms of ages alone: 90, 180 and 365 days. */
  lemma AgesDecideClass(t: Table, now: int, app: Id)
    requires Consistent(t) && app in t.apps
    ensures var u := After(t, now);
            var c := u.apps[app].classification;
            && (c == Loss <==> OverdueBy(u.records, now, app, 365))
            && (c in {Doubtful, Loss} <==> OverdueBy(u.records, now, app, 180))
            && (c == Pass <==> !OverdueBy(u.records, now, app, 90))
  {
    AgesDecide(After(t, now).records, now, app);
  }

  lemma ClassifyIsMonotone(now: int, due: int, later: int, older: int)
    requires now <= later && older <= due
    ensures Severity(Classify((now - due) / MS_PER_DAY)) <= Severity(Classify((later - older) / MS_PER_DAY))
  {
  }

  /** Until the next job what is overdue on the loan is not paid in full; it may be paid in part. */
  ghost predicate OverdueStays(before: Table, time: int, next: Table, app: Id)
    requires Consistent(before)
  {
    forall id :: OverdueOf(After(before, time).records, app, id) ==>
      && id in next.records && next.records[id].applicationId == app
      && next.records[id].entry.status != Paid
      && next.records[id].entry.row == After(before, time).records[id].entry.row
  }

  /** What is OVERDUE on the loan was due on an earlier day, as the job leaves it. */
  ghost predicate DueWhenOverdue(t: Table, app: Id, today: int) {
    forall id :: OverdueOf(t.records, app, id) ==> Day(t.records[id].entry.row.dueDate) < today
  }

  ghost predicate NoneSettled(tables: seq<Table>, times: seq<int>, first: int, app: Id)
    requires Nights(tables, times, first)
  {
    && (forall i :: 0 <= i < |tables| ==> app in tables[i].apps && DueWhenOverdue(tables[i], app, first + i))
    && (forall i :: 0 <= i < |tables| - 1 ==> OverdueStays(tables[i], times[i], tables[i + 1], app))
  }

  lemma NightLeavesDue(t: Table, now: int, app: Id, id: Id)
    requires Consistent(t) && DueWhenOverdue(t, app, Day(now)) && OverdueOf(After(t, now).records, app, id)
    ensures Day(After(t, now).records[id].entry.row.dueDate) < Day(now)
  {
    NightOnEntry(t, now, id);
    DayStarts(t.records[id].entry.row.dueDate, Day(now));
    assert t.records[id].entry.status == Overdue ==> OverdueOf(t.records, app, id);
  }

  lemma NightMarksDue(t: Table, now: int, app: Id, id: Id)
    requires Consistent(t) && id in t.records && t.records[id].applicationId == app
    requires t.records[id].entry.status != Paid && Day(t.records[id].entry.row.dueDate) < Day(now)
    ensures OverdueOf(After(t, now).records, app, id)
    ensures After(t, now).records[id].entry.row == t.records[id].entry.row
  {
    NightOnEntry(t, now, id);
    DayStarts(t.records[id].entry.row.dueDate, Day(now));
  }

  /** How bad the loan's class is after a night. */
  function SeverityAfter(t: Table, now: int, app: Id): nat
    requires Consistent(t) && app in t.apps
  {
    Severity(After(t, now).apps[app].classification)
  }

  lemma StillOverdueNoBetter(u: Table, now: int, v: Table, later: int, app: Id)
    requires app in u.apps && app in v.apps && now <= later
    requires ClassifiedByWorst(u, now, app) && ClassifiedByWorst(v, later, app)
    requires forall id :: OverdueOf(u.records, app, id) ==>
               OverdueOf(v.records, app, id) && v.records[id].entry.row == u.records[id].entry.row
    ensures Severity(u.apps[app].classification) <= Severity(v.apps[app].classification)
  {
    if u.apps[app].classification != Pass {
      var id :| OverdueOf(u.records, app, id) && u.apps[app].classification == Classify(DaysOverdue(u.records[id].entry, now));
      var due := u.records[id].entry.row.dueDate;
      ClassifyIsMonotone(now, due, later, due);
    }
  }

  lemma NextNightNoBetter(t: Table, now: int, next: Table, later: int, app: Id)
    requires Consistent(t) && Consistent(next) && app in t.apps && app in next.apps
    requires DueWhenOverdue(t, app, Day(now)) && OverdueStays(t, now, next, app) && Day(now) < Day(later)
    ensures SeverityAfter(t, now, app) <= SeverityAfter(next, later, app)
  {
    var u, v := After(t, now), After(next, later);
    ClassifiedByOldest(t, now, app);
    ClassifiedByOldest(next, later, app);
    LaterDayLaterTime(now, later);
    forall id | OverdueOf(u.records, app, id)
      ensures OverdueOf(v.records, app, id) && v.records[id].entry.row == u.records[id].entry.row
    {
      NightLeavesDue(t, now, app, id);
      NightMarksDue(next, later, app, id);
    }
    StillOverdueNoBetter(u, now, v, later, app);
  }

  lemma LaterDayLaterTime(s: int, t: int)
    requires Day(s) < Day(t)
    ensures s < t
  {
  }

  lemma {:induction false} StepwiseNeverFalls(f: seq<int>, i: nat, j: nat)
    requires i <= j < |f| && forall k :: 0 <= k < |f| - 1 ==> f[k] <= f[k + 1]
    ensures f[i] <= f[j]
    decreases j
  {
    if i < j {
      StepwiseNeverFalls(f, i, j - 1);
      assert f[j - 1] <= f[j - 1 + 1];
    }
  }

  /**
   While nothing overdue is paid in full, a loan's class never improves from one night to any later
   one, whatever is paid in part. `severities` lists the class after each night.
   */
  lemma ClassNeverImproves(tables: seq<Table>, times: seq<int>, first: int, app: Id, severities: seq<int>, i: nat, j: nat)
    requires Nights(tables, times, first) && NoneSettled(tables, times, first, app) && i <= j < |tables| == |severities|
    requires forall k :: 0 <= k < |tables| ==> severities[k] == SeverityAfter(tables[k], times[k], app)
    ensures severities[i] <= severities[j]
  {
    forall k | 0 <= k < |severities| - 1 ensures severities[k] <= severities[k + 1] {
      NextNightNoBetter(tables[k], times[k], tables[k + 1], times[k + 1], app);
    }
    StepwiseNeverFalls(severities, i, j);
  }
}
