/**
 Stored schedule entries and what payments do to them
 (src/modules/dashboard/repayment/dashboard-repayment.service.ts). Amounts are paisa.
 */
module Entries {
  import opened RealMath
  import opened Schedule

  datatype EntryStatus = Upcoming | Paid | Overdue | Partial

  datatype Entry = Entry(row: Row, status: EntryStatus, paidAmount: int, penalInterestAccrued: int)

  function Fresh(row: Row): Entry {
    Entry(row, Upcoming, 0, 0)
  }

  function FreshAll(rows: seq<Row>): seq<Entry> {
    seq(|rows|, i requires 0 <= i < |rows| => Fresh(rows[i]))
  }

  /** A two-decimal column rounds what it is given, half-way cases away from zero. */
  function Stored(amount: real): int {
    if amount < 0.0 then -((-amount + 0.5).Floor) else (amount + 0.5).Floor
  }

  /** So does a percentage column. */
  function StoredPercent(percent: real): real {
    Stored(percent * 100.0) as real / 100.0
  }

  /** markPaid compares the amount as sent and stores it rounded; a payment replaces the one before it. */
  function Pay(e: Entry, amount: real): Entry {
    e.(paidAmount := Stored(amount),
       status := if e.row.emiAmount as real <= amount then Paid else Partial)
  }

  /** markOverdueEntries: due before today and neither paid nor already overdue. */
  function MarkOverdue(e: Entry, startOfToday: int): Entry {
    if e.status in {Upcoming, Partial} && e.row.dueDate < startOfToday then e.(status := Overdue) else e
  }

  predicate AllPaid(entries: seq<Entry>) {
    forall i :: 0 <= i < |entries| ==> entries[i].status == Paid
  }

  function TotalRepayable(entries: seq<Entry>): int {
    if entries == [] then 0 else entries[0].row.emiAmount + TotalRepayable(entries[1..])
  }

  function TotalPaid(entries: seq<Entry>): int {
    if entries == [] then 0 else entries[0].paidAmount + TotalPaid(entries[1..])
  }

  /** The balance getRepaymentStatus reports. */
  function OutstandingBalance(entries: seq<Entry>): int {
    Max(TotalRepayable(entries) - TotalPaid(entries), 0)
  }

  /** A PAID entry's stored amount covers its instalment. */
  predicate Covered(e: Entry) {
    e.status == Paid ==> e.row.emiAmount <= e.paidAmount
  }

  lemma {:induction false} PaidTotalsCover(entries: seq<Entry>)
    requires AllPaid(entries) && forall i :: 0 <= i < |entries| ==> Covered(entries[i])
    ensures TotalRepayable(entries) <= TotalPaid(entries)
  {
    if entries != [] {
      assert Covered(entries[0]);
      forall i | 0 <= i < |entries| - 1 ensures Covered(entries[1..][i]) {
        assert Covered(entries[i + 1]);
      }
      PaidTotalsCover(entries[1..]);
    }
  }

  lemma StoredIsMonotone(x: real, y: real)
    requires x <= y
    ensures Stored(x) <= Stored(y)
  {
  }

  lemma StoredKeepsWhole(n: int)
    ensures Stored(n as real) == n
  {
  }

  /** Whatever is paid, a PAID entry is covered by what the column stores. */
  lemma PayKeepsCovered(e: Entry, amount: real)
    ensures Covered(Pay(e, amount))
  {
    if e.row.emiAmount as real <= amount {
      StoredIsMonotone(e.row.emiAmount as real, amount);
      StoredKeepsWhole(e.row.emiAmount);
    }
  }

  /** The payment falls short of the instalment, but only by what the column rounds away. */
  predicate ShortByRounding(emiAmount: int, amount: real) {
    var emi := emiAmount as real;
    amount < emi && (if 0 < emiAmount then emi - 0.5 <= amount else emi - 0.5 < amount)
  }

  lemma StoredReaches(emiAmount: int, amount: real)
    ensures emiAmount <= Stored(amount) <==> emiAmount as real <= amount || ShortByRounding(emiAmount, amount)
  {
  }

  lemma WholeIsNeverShort(emiAmount: int, amount: int)
    ensures !ShortByRounding(emiAmount, amount as real)
  {
  }

  /**
   After any payment on any instalment, PAID and "the stored amount covers the instalment" agree
   exactly unless the payment falls short by no more than half a paisa, which the column rounds away.
   */
  lemma PaidMeansCoveredExactlyWhen(e: Entry, amount: real)
    ensures var paid := Pay(e, amount);
            (paid.status == Paid <==> e.row.emiAmount <= paid.paidAmount) <==> !ShortByRounding(e.row.emiAmount, amount)
  {
    StoredReaches(e.row.emiAmount, amount);
  }

  /** An instalment of one rupee paid with 99.5 paisa stays PARTIAL although the column shows the full rupee. */
  lemma HalfPaisaShortStaysPartial(row: Row)
    requires row.emiAmount == 100
    ensures var e := Pay(Fresh(row), 99.5); e.status == Partial && e.paidAmount == 100
  {
    assert (99.5 + 0.5).Floor == 100;
  }

  /** A percentage is stored to the nearest hundredth. */
  lemma StoredPercentIsNearest(percent: real)
    ensures var stored := StoredPercent(percent);
            && -0.005 <= stored - percent <= 0.005 && stored * 100.0 == (stored * 100.0).Floor as real
  {
    var hundredths := Stored(percent * 100.0);
    assert StoredPercent(percent) * 100.0 == hundredths as real;
  }

  lemma {:induction false} TotalsOfOne(entries: seq<Entry>, i: nat, e: Entry)
    requires i < |entries|
    ensures TotalPaid(entries[i := e]) == TotalPaid(entries) - entries[i].paidAmount + e.paidAmount
    ensures TotalRepayable(entries[i := e]) == TotalRepayable(entries) - entries[i].row.emiAmount + e.row.emiAmount
  {
    var after := entries[i := e];
    if i == 0 {
      assert after[1..] == entries[1..];
    } else {
      TotalsOfOne(entries[1..], i - 1, e);
      assert after[1..] == entries[1..][i - 1 := e];
    }
  }

  /** A payment puts its stored amount in the place of the one before it; what is repayable stays. */
  lemma PaymentMovesTotals(entries: seq<Entry>, i: nat, amount: real)
    requires i < |entries|
    ensures var after := entries[i := Pay(entries[i], amount)];
            && TotalPaid(after) == TotalPaid(entries) - entries[i].paidAmount + Stored(amount)
            && TotalRepayable(after) == TotalRepayable(entries)
  {
    TotalsOfOne(entries, i, Pay(entries[i], amount));
  }

  lemma {:induction false} FreshTotals(rows: seq<Row>)
    ensures TotalPaid(FreshAll(rows)) == 0 && TotalRepayable(FreshAll(rows)) == TotalBilled(rows, |rows|)
  {
    if rows != [] {
      var init := rows[..|rows| - 1];
      FreshTotals(init);
      var last := Fresh(rows[|rows| - 1]);
      assert FreshAll(rows) == FreshAll(init) + [last];
      TotalsOfLast(FreshAll(init), last);
      BilledOfPrefix(rows, |rows| - 1);
    }
  }

  lemma {:induction false} TotalsOfLast(entries: seq<Entry>, e: Entry)
    ensures TotalPaid(entries + [e]) == TotalPaid(entries) + e.paidAmount
    ensures TotalRepayable(entries + [e]) == TotalRepayable(entries) + e.row.emiAmount
  {
    if entries == [] {
      assert entries + [e] == [e] && [e][1..] == [];
    } else {
      assert (entries + [e])[1..] == entries[1..] + [e];
      TotalsOfLast(entries[1..], e);
    }
  }

  lemma {:induction false} BilledOfPrefix(rows: seq<Row>, k: nat)
    requires k < |rows|
    ensures TotalBilled(rows[..|rows| - 1], k) == TotalBilled(rows, k)
  {
    if k > 0 {
      BilledOfPrefix(rows, k - 1);
    }
  }

  /** On a fresh schedule everything billed is outstanding. */
  lemma FreshIsAllOutstanding(rows: seq<Row>)
    ensures OutstandingBalance(FreshAll(rows)) == if TotalBilled(rows, |rows|) < 0 then 0 else TotalBilled(rows, |rows|)
  {
    FreshTotals(rows);
  }
}
