/**
 The nightly job (src/modules/dashboard/jobs/dashboard-jobs.service.ts): mark overdue, send
 reminders, accrue penal interest, reclassify, over the entries of all applications. Times are
 local milliseconds; a day is 24 hours long.
 */
module DailyJob {
  import opened Wrappers
  import opened RealMath
  import opened Calendar
  import opened Entries

  type Id = nat

  datatype Record = Record(applicationId: Id, entry: Entry)

  datatype Classification = Pass | Substandard | Doubtful | Loss

  /** Of the applicant only: is there a phone number, is there an account to notify. */
  datatype App = App(interestRate: Option<real>, classification: Classification, hasPhone: bool, hasUser: bool)

  datatype Table = Table(records: map<Id, Record>, apps: map<Id, App>)

  /** Every entry belongs to an application, by foreign key. */
  predicate Consistent(t: Table) {
    forall id :: id in t.records ==> t.records[id].applicationId in t.apps
  }

  datatype Trigger = Trigger(name: string, offsetDays: Option<int>)

  const TRIGGERS: seq<Trigger> := [
    Trigger("1 month", Some(-30)),
    Trigger("15 days", Some(-15)),
    Trigger("7 days", Some(-7)),
    Trigger("4 days", Some(-4)),
    Trigger("3 days", Some(-3)),
    Trigger("2 days", Some(-2)),
    Trigger("1 day", Some(-1)),
    Trigger("Day 1 OD", Some(1)),
    Trigger("Day 7 OD", Some(7)),
    Trigger("Doc expiry", None)
  ]

  datatype Channel = Sms | WhatsApp | Notification

  /** One dated reminder about one entry on one channel. */
  datatype Reminder = Reminder(offsetDays: int, entry: Id, channel: Channel)

  function Day(time: int): int {
    time / MS_PER_DAY
  }

  function StartOfDay(day: int): int {
    day * MS_PER_DAY
  }

  // ---- The four steps --------------------------------------------------------------------

  function MarkedOverdue(records: map<Id, Record>, now: int): map<Id, Record> {
    map id | id in records :: records[id].(entry := MarkOverdue(records[id].entry, StartOfDay(Day(now))))
  }

  /** getEntriesDueForReminder's filter: due on the day that lies offsetDays before today. */
  predicate DueForReminder(e: Entry, offsetDays: int, now: int) {
    var target := StartOfDay(Day(now) - offsetDays);
    && e.status == (if offsetDays > 0 then Overdue else Upcoming)
    && target <= e.row.dueDate < target + MS_PER_DAY
  }

  function EntriesDue(records: map<Id, Record>, offsetDays: int, now: int): set<Id> {
    set id | id in records && DueForReminder(records[id].entry, offsetDays, now)
  }

  /** The applicant can be sent something about the entry on the channel. */
  predicate Reaches(t: Table, id: Id, channel: Channel) {
    && id in t.records && t.records[id].applicationId in t.apps
    && var app := t.apps[t.records[id].applicationId];
       match channel case Notification => app.hasUser case _ => app.hasPhone
  }

  function ReminderSet(t: Table, offsetDays: int, ids: set<Id>): set<Reminder> {
    set id, channel: Channel | id in ids && Reaches(t, id, channel) :: Reminder(offsetDays, id, channel)
  }

  function RemindersFor(t: Table, offsetDays: int, ids: set<Id>): multiset<Reminder> {
    multiset(ReminderSet(t, offsetDays, ids))
  }

  /** What the first k triggers send. */
  function RemindersUpTo(t: Table, now: int, k: nat): multiset<Reminder>
    requires k <= |TRIGGERS|
  {
    if k == 0 then multiset{}
    else RemindersUpTo(t, now, k - 1) +
         match TRIGGERS[k - 1].offsetDays
         case None => multiset{}
         case Some(offset) => RemindersFor(t, offset, EntriesDue(t.records, offset, now))
  }

  lemma NextTrigger(t: Table, now: int, k: nat)
    requires k < |TRIGGERS|
    ensures RemindersUpTo(t, now, k + 1) == RemindersUpTo(t, now, k) +
              if TRIGGERS[k].offsetDays.None? then multiset{}
              else RemindersFor(t, TRIGGERS[k].offsetDays.value, EntriesDue(t.records, TRIGGERS[k].offsetDays.value, now))
  {
  }

  function Reminders(t: Table, now: int): multiset<Reminder> {
    RemindersUpTo(t, now, |TRIGGERS|)
  }

  /** Simple daily interest on the instalment at the contract rate plus two percent, unrounded. */
  function DailyPenalInterest(emiAmount: int, interestRate: Option<real>): real {
    emiAmount as real * (interestRate.GetOr(0.0) + 2.0) / 100.0 / 365.0
  }

  function Accrue(e: Entry, interestRate: Option<real>): Entry {
    if e.status != Overdue then e
    else e.(penalInterestAccrued :=
      Round(e.penalInterestAccrued as real + DailyPenalInterest(e.row.emiAmount, interestRate)))
  }

  function Accrued(t: Table): map<Id, Record>
    requires Consistent(t)
  {
    map id | id in t.records ::
      t.records[id].(entry := Accrue(t.records[id].entry, t.apps[t.records[id].applicationId].interestRate))
  }

  function OverdueDates(records: map<Id, Record>, app: Id): set<int> {
    set id | id in records && records[id].applicationId == app && records[id].entry.status == Overdue
      :: records[id].entry.row.dueDate
  }

  lemma Element<T>(s: set<T>) returns (x: T)
    requires s != {}
    ensures x in s
  {
    x :| x in s;
  }

  lemma {:induction false} LeastExists(dates: set<int>)
    requires dates != {}
    ensures exists m :: m in dates && forall d :: d in dates ==> m <= d
    decreases |dates|
  {
    var x := Element(dates);
    if dates != {x} {
      var rest := dates - {x};
      LeastExists(rest);
      var m :| m in rest && forall d :: d in rest ==> m <= d;
      var least := if x < m then x else m;
      assert least in dates && forall d :: d in dates ==> least <= d by {
        assert dates == rest + {x};
      }
    }
  }

  function Oldest(dates: set<int>): (m: int)
    requires dates != {}
    ensures m in dates && forall d :: d in dates ==> m <= d
  {
    LeastExists(dates);
    var m :| m in dates && forall d :: d in dates ==> m <= d;
    m
  }

  function Classify(daysOverdue: int): Classification {
    if daysOverdue >= 365 then Loss
    else if daysOverdue >= 180 then Doubtful
    else if daysOverdue >= 90 then Substandard
    else Pass
  }

  function ClassificationOf(records: map<Id, Record>, app: Id, now: int): Classification {
    var dates := OverdueDates(records, app);
    if dates == {} then Pass else Classify((now - Oldest(dates)) / MS_PER_DAY)
  }

  function Reclassified(t: Table, now: int): map<Id, App> {
    map app | app in t.apps :: t.apps[app].(classification := ClassificationOf(t.records, app, now))
  }

  /** The rows after one night. */
  function After(t: Table, now: int): Table
    requires Consistent(t)
  {
    var marked := t.(records := MarkedOverdue(t.records, now));
    var accrued := marked.(records := Accrued(marked));
    accrued.(apps := Reclassified(accrued, now))
  }

  /** The reminders of one night: marking comes first. */
  function Sent(t: Table, now: int): multiset<Reminder> {
    Reminders(t.(records := MarkedOverdue(t.records, now)), now)
  }

  /** What one entry is sent on one trigger. */
  function RemindersOf(t: Table, offset: int, id: Id): multiset<Reminder> {
    (if Reaches(t, id, Sms) then multiset{Reminder(offset, id, Sms), Reminder(offset, id, WhatsApp)} else multiset{})
    + (if Reaches(t, id, Notification) then multiset{Reminder(offset, id, Notification)} else multiset{})
  }

  lemma RemindersForOneMore(t: Table, offset: int, ids: set<Id>, id: Id)
    requires id !in ids
    ensures RemindersFor(t, offset, ids + {id}) == RemindersFor(t, offset, ids) + RemindersOf(t, offset, id)
  {
    var few, added := ReminderSet(t, offset, ids), ReminderSet(t, offset, {id});
    assert ReminderSet(t, offset, ids + {id}) == few + added && few !! added;
    RemindersForOne(t, offset, id);
  }

  lemma RemindersForOne(t: Table, offset: int, id: Id)
    ensures RemindersFor(t, offset, {id}) == RemindersOf(t, offset, id)
  {
  }

  lemma AccrueByRounded(e: Entry, rate: Option<real>)
    ensures Accrue(e, rate) == e.(penalInterestAccrued := e.penalInterestAccrued +
              if e.status == Overdue then Round(DailyPenalInterest(e.row.emiAmount, rate)) else 0)
  {
    RoundShifts(DailyPenalInterest(e.row.emiAmount, rate), e.penalInterestAccrued);
  }

  function DaysOverdue(e: Entry, now: int): int {
    (now - e.row.dueDate) / MS_PER_DAY
  }

  predicate OverdueOf(records: map<Id, Record>, app: Id, id: Id) {
    id in records && records[id].applicationId == app && records[id].entry.status == Overdue
  }

  /** Some instalment of the loan is overdue by at least so many days. */
  predicate OverdueBy(records: map<Id, Record>, now: int, app: Id, days: int) {
    exists id :: id in records && OverdueOf(records, app, id) && days <= DaysOverdue(records[id].entry, now)
  }

  lemma OldestIsLongestOverdue(records: map<Id, Record>, now: int, app: Id, days: int)
    requires OverdueDates(records, app) != {}
    ensures OverdueBy(records, now, app, days) <==> days <= (now - Oldest(OverdueDates(records, app))) / MS_PER_DAY
  {
    var dates := OverdueDates(records, app);
    var oldest := Oldest(dates);
    var first :| first in records && OverdueOf(records, app, first) && records[first].entry.row.dueDate == oldest;
    assert DaysOverdue(records[first].entry, now) == (now - oldest) / MS_PER_DAY;
    forall id | OverdueOf(records, app, id) ensures DaysOverdue(records[id].entry, now) <= (now - oldest) / MS_PER_DAY {
      assert records[id].entry.row.dueDate in dates;
    }
  }

  /** The ages of its overdue instalments alone decide a loan's class: 90, 180 and 365 days. */
  lemma AgesDecide(records: map<Id, Record>, now: int, app: Id)
    ensures var c := ClassificationOf(records, app, now);
            && (c == Loss <==> OverdueBy(records, now, app, 365))
            && (c in {Doubtful, Loss} <==> OverdueBy(records, now, app, 180))
            && (c == Pass <==> !OverdueBy(records, now, app, 90))
  {
    var dates := OverdueDates(records, app);
    if dates == {} {
      forall id | id in records ensures !OverdueOf(records, app, id) {
        assert records[id].entry.row.dueDate !in dates;
      }
    } else {
      OldestIsLongestOverdue(records, now, app, 365);
      OldestIsLongestOverdue(records, now, app, 180);
      OldestIsLongestOverdue(records, now, app, 90);
    }
  }

  class JobService {
    var records: map<Id, Record>
    var apps: map<Id, App>
    var sent: multiset<Reminder>

    function Rows(): Table
      reads this
    {
      Table(records, apps)
    }

    /** Exactly the unpaid entries due on an earlier day become OVERDUE; nothing else changes. */
    method MarkOverdueEntries(now: int)
      modifies `records
      ensures records.Keys == old(records).Keys
      ensures forall id :: id in records ==>
                && records[id].applicationId == old(records)[id].applicationId
                && var e := old(records)[id].entry;
                   records[id].entry ==
                     if e.status in {Upcoming, Partial} && Day(e.row.dueDate) < Day(now) then e.(status := Overdue) else e
      ensures records == MarkedOverdue(old(records), now)
    {
      var startOfToday := StartOfDay(Day(now));
      records := map id | id in records :: records[id].(entry := MarkOverdue(records[id].entry, startOfToday));
    }

    method SendDueReminders(now: int)
      modifies `sent
      ensures sent == old(sent) + Reminders(Rows(), now)
    {
      ghost var t := Rows();
      var k := 0;
      while k < |TRIGGERS|
        invariant 0 <= k <= |TRIGGERS| && Rows() == t
        invariant sent == old(sent) + RemindersUpTo(t, now, k)
      {
        var trigger := TRIGGERS[k];
        NextTrigger(t, now, k);
        k := k + 1;
        if trigger.offsetDays.None? {
          continue;
        }
        var entries := EntriesDue(records, trigger.offsetDays.value, now);
        SendEach(trigger.offsetDays.value, entries);
      }
    }

    /** The inner loop, over the entries the query returned in any order. */
    method SendEach(offset: int, entries: set<Id>)
      requires entries <= records.Keys
      modifies `sent
      ensures sent == old(sent) + RemindersFor(Rows(), offset, entries)
    {
      var due := entries;
      ghost var handled: set<Id> := {};
      while due != {}
        invariant handled !! due && handled + due == entries
        invariant sent == old(sent) + RemindersFor(Rows(), offset, handled)
        decreases due
      {
        var id :| id in due;
        due := due - {id};
        RemindersForOneMore(Rows(), offset, handled, id);
        handled := handled + {id};
        SendOne(offset, id);
      }
      assert handled == entries;
    }

    /** The body of the inner loop: text messages if there is a phone, a notification if there is a user. */
    method SendOne(offset: int, id: Id)
      requires id in records
      modifies `sent
      ensures sent == old(sent) + RemindersOf(Rows(), offset, id)
    {
      var application := records[id].applicationId;
      if application !in apps {
        return;
      }
      if apps[application].hasPhone {
        sent := sent + multiset{Reminder(offset, id, Sms), Reminder(offset, id, WhatsApp)};
      }
      if apps[application].hasUser {
        sent := sent + multiset{Reminder(offset, id, Notification)};
      }
    }

    /** Every overdue entry gains one day of penal interest, rounded by itself; nothing else changes. */
    method AccruePenalInterest()
      requires Consistent(Rows())
      modifies `records
      ensures records.Keys == old(records).Keys
      ensures forall id :: id in records ==>
                && records[id].applicationId == old(records)[id].applicationId
                && var e := old(records)[id].entry;
                   var gain := if e.status != Overdue then 0
                               else Round(DailyPenalInterest(e.row.emiAmount, apps[records[id].applicationId].interestRate));
                   records[id].entry == e.(penalInterestAccrued := e.penalInterestAccrued + gain)
      ensures records == Accrued(old(Rows()))
    {
      forall id | id in records {
        AccrueByRounded(records[id].entry, apps[records[id].applicationId].interestRate);
      }
      records := map id | id in records ::
        records[id].(entry := Accrue(records[id].entry, apps[records[id].applicationId].interestRate));
    }

    /** Each loan's class follows from the ages of its overdue entries; nothing else about a loan changes. */
    method ReclassifyLoans(now: int)
      modifies `apps
      ensures apps.Keys == old(apps).Keys
      ensures forall app :: app in apps ==>
                var c := apps[app].classification;
                && apps[app] == old(apps)[app].(classification := c)
                && (c == Loss <==> OverdueBy(records, now, app, 365))
                && (c in {Doubtful, Loss} <==> OverdueBy(records, now, app, 180))
                && (c == Pass <==> !OverdueBy(records, now, app, 90))
      ensures apps == Reclassified(old(Rows()), now)
    {
      forall app | app in apps {
        AgesDecide(records, now, app);
      }
      apps := map app | app in apps :: apps[app].(classification := ClassificationOf(records, app, now));
    }

    method RunDailyEmiJob(now: int)
      requires Consistent(Rows())
      modifies this
      ensures Rows() == After(old(Rows()), now) && Consistent(Rows())
      ensures sent == old(sent) + Sent(old(Rows()), now)
    {
      MarkOverdueEntries(now);
      SendDueReminders(now);
      AccruePenalInterest();
      ReclassifyLoans(now);
    }
  }
}
