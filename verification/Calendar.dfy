/**
 The civil calendar behind JavaScript dates, as section 21.4.1 of ECMA-262 defines it:
 day numbers, month lengths, and the roll-over that setMonth performs.
 */
module Calendar {

  const MS_PER_DAY := 86_400_000

  /** A local date and time, decomposed; months count from 0 as in JavaScript. */
  datatype CivilTime = CivilTime(year: int, month: int, day: int, msInDay: int)

  predicate ValidTime(t: CivilTime) {
    && 0 <= t.month < 12
    && 1 <= t.day <= LengthOfMonth(12 * t.year + t.month)
    && 0 <= t.msInDay < MS_PER_DAY
  }

  predicate Leap(y: int) {
    y % 4 == 0 && (y % 100 != 0 || y % 400 == 0)
  }

  function MonthLength(leap: bool, month: int): int {
    if month == 1 then (if leap then 29 else 28)
    else if month in {3, 5, 8, 10} then 30
    else 31
  }

  /** Months are numbered through from the start of the year 0. */
  function MonthIndex(t: CivilTime): int {
    12 * t.year + t.month
  }

  function LengthOfMonth(index: int): int {
    MonthLength(Leap(index / 12), index % 12)
  }

  function Sum(f: int -> int, from: int, k: nat): int {
    if k == 0 then 0 else Sum(f, from, k - 1) + f(from + k - 1)
  }

  /** The days in k successive months. */
  function Span(index: int, k: nat): int {
    Sum(LengthOfMonth, index, k)
  }

  /** The day number, counted from 1970, on which a month begins: all months in between, laid end to end. */
  function FirstOfMonth(index: int): int {
    if 0 <= index then Span(0, index) - 719_528 else -Span(index, -index) - 719_528
  }

  /** The day a date falls on once setMonth has moved it on by a number of months. */
  function DayAfterMonths(t: CivilTime, months: int): int {
    FirstOfMonth(MonthIndex(t) + months) + t.day - 1
  }

  // ---- Laying months end to end -----------------------------------------------------

  lemma {:induction false} SumSplits(f: int -> int, from: int, j: nat, k: nat)
    ensures Sum(f, from, j + k) == Sum(f, from, j) + Sum(f, from + j, k)
  {
    if k > 0 {
      SumSplits(f, from, j, k - 1);
    }
  }

  lemma MonthsOn(index: int, k: nat)
    ensures FirstOfMonth(index + k) == FirstOfMonth(index) + Span(index, k)
  {
    if 0 <= index {
      SumSplits(LengthOfMonth, 0, index, k);
    } else if index + k <= 0 {
      SumSplits(LengthOfMonth, index, k, -(index + k));
    } else {
      SumSplits(LengthOfMonth, index, -index, index + k);
    }
  }

  /** Due days never drift: a later one follows by the length of the months between. */
  lemma DaysBetween(t: CivilTime, months: int, k: nat)
    ensures DayAfterMonths(t, months + k) == DayAfterMonths(t, months) + Span(MonthIndex(t) + months, k)
  {
    MonthsOn(MonthIndex(t) + months, k);
    assert MonthIndex(t) + (months + k) == MonthIndex(t) + months + k;
  }

  lemma {:induction false} SumBounds(f: int -> int, from: int, k: nat, low: int, high: int)
    requires forall i :: low <= f(i) <= high
    ensures low * k <= Sum(f, from, k) <= high * k
  {
    if k > 0 {
      SumBounds(f, from, k - 1, low, high);
    }
  }

  lemma SpanBounds(index: int, k: nat)
    ensures 28 * k <= Span(index, k) <= 31 * k
  {
    SumBounds(LengthOfMonth, index, k, 28, 31);
  }

  /** A quarter lasts 89 to 92 days. */
  lemma QuarterSpan(index: int)
    ensures 89 <= Span(index, 3) <= 92
  {
    SumOfThree(LengthOfMonth, index);
    ThreeMonths(index);
  }

  lemma SumOfThree(f: int -> int, from: int)
    ensures Sum(f, from, 3) == f(from) + f(from + 1) + f(from + 2)
  {
    assert Sum(f, from, 2) == Sum(f, from, 1) + f(from + 1);
    assert Sum(f, from, 1) == f(from);
  }

  lemma ThreeMonths(index: int)
    ensures 89 <= LengthOfMonth(index) + LengthOfMonth(index + 1) + LengthOfMonth(index + 2) <= 92
  {
    var m := index % 12;
    assert (index + 1) % 12 == (if m == 11 then 0 else m + 1);
    assert (index + 2) % 12 == (if m >= 10 then m - 10 else m + 2);
  }

  // ---- The formulas of ECMA-262 -------------------------------------------------------

  function DayFromYear(y: int): int {
    365 * (y - 1970) + (y - 1969) / 4 - (y - 1901) / 100 + (y - 1601) / 400
  }

  /** Days of the year before a month; month 12 stands for the whole year. */
  function DaysBeforeMonth(leap: bool, month: int): int
    requires 0 <= month <= 12
  {
    [0, 31, 59, 90, 120, 151, 181, 212, 243, 273, 304, 334, 365][month] + (if leap && month >= 2 then 1 else 0)
  }

  function MonthStart(y: int, m: int): int
    requires 0 <= m < 12
  {
    DayFromYear(y) + DaysBeforeMonth(Leap(y), m)
  }

  /** MakeDay: the month may lie outside the year, the date outside the month. */
  function MakeDay(year: int, month: int, date: int): int {
    MonthStart(year + month / 12, month % 12) + date - 1
  }

  function MakeMonth(index: int): int {
    MonthStart(index / 12, index % 12)
  }

  lemma DivisionIs(x: int, d: int, q: int, r: int)
    requires 0 <= r < d && x == d * q + r
    ensures x / d == q && x % d == r
  {
    var k := x / d - q;
    var dk := d * k;
    assert dk == r - x % d;
    assert k >= 1 ==> dk >= d;
    assert k <= -1 ==> dk <= -d;
  }

  lemma FloorSteps(x: int, d: int)
    requires 0 < d
    ensures (x + 1) / d == x / d + (if (x + 1) % d == 0 then 1 else 0)
  {
    var q, r := x / d, x % d;
    if r + 1 == d {
      DivisionIs(x + 1, d, q + 1, 0);
    } else {
      DivisionIs(x + 1, d, q, r + 1);
    }
  }

  lemma Every4(y: int)
    ensures (y - 1968) / 4 == (y - 1969) / 4 + (if y % 4 == 0 then 1 else 0)
  {
    FloorSteps(y - 1969, 4);
    assert (y - 1968) % 4 == 0 <==> y % 4 == 0;
  }

  lemma Every100(y: int)
    ensures (y - 1900) / 100 == (y - 1901) / 100 + (if y % 100 == 0 then 1 else 0)
  {
    FloorSteps(y - 1901, 100);
    assert (y - 1900) % 100 == 0 <==> y % 100 == 0;
  }

  lemma Every400(y: int)
    ensures (y - 1600) / 400 == (y - 1601) / 400 + (if y % 400 == 0 then 1 else 0)
  {
    FloorSteps(y - 1601, 400);
    assert (y - 1600) % 400 == 0 <==> y % 400 == 0;
  }

  lemma Centuries(y: int)
    ensures y % 100 == 0 ==> y % 4 == 0
    ensures y % 400 == 0 ==> y % 100 == 0
  {
  }

  lemma DaysInYear(leap: bool)
    ensures DaysBeforeMonth(leap, 12) == if leap then 366 else 365
  {
  }

  lemma YearLength(y: int)
    ensures DayFromYear(y + 1) == DayFromYear(y) + DaysBeforeMonth(Leap(y), 12)
  {
    Every4(y);
    Every100(y);
    Every400(y);
    Centuries(y);
    DaysInYear(Leap(y));
  }

  lemma NextMonth(y: int, m: int)
    requires 0 <= m < 12
    ensures (if m == 11 then MonthStart(y + 1, 0) else MonthStart(y, m + 1)) == MonthStart(y, m) + MonthLength(Leap(y), m)
  {
    YearLength(y);
  }

  lemma NextIndex(index: int)
    ensures MakeMonth(index + 1) == MakeMonth(index) + LengthOfMonth(index)
  {
    var y, m := index / 12, index % 12;
    NextMonth(y, m);
    if m == 11 {
      DivisionIs(index + 1, 12, y + 1, 0);
    } else {
      DivisionIs(index + 1, 12, y, m + 1);
    }
  }

  lemma {:induction false} Telescope(first: int -> int, length: int -> int, index: int, k: nat)
    requires forall i :: first(i + 1) == first(i) + length(i)
    ensures first(index + k) == first(index) + Sum(length, index, k)
  {
    if k > 0 {
      Telescope(first, length, index, k - 1);
      assert first(index + k - 1 + 1) == first(index + k - 1) + length(index + k - 1);
    }
  }

  /** The closed formulas count exactly the months laid end to end, in every year. */
  lemma FormulasCountMonths(index: int)
    ensures MakeMonth(index) == FirstOfMonth(index)
  {
    forall i ensures MakeMonth(i + 1) == MakeMonth(i) + LengthOfMonth(i) {
      NextIndex(i);
    }
    if 0 <= index {
      Telescope(MakeMonth, LengthOfMonth, 0, index);
    } else {
      Telescope(MakeMonth, LengthOfMonth, index, -index);
    }
    YearZero();
  }

  lemma YearZero()
    ensures MakeMonth(0) == -719_528
  {
  }

  /** setMonth hands year, month and day to MakeDay; what comes back is the date so many months on. */
  lemma SetMonthIsMakeDay(t: CivilTime, months: int)
    ensures MakeDay(t.year, t.month + months, t.day) == DayAfterMonths(t, months)
  {
    var index, month := MonthIndex(t) + months, t.month + months;
    DivisionIs(index, 12, t.year + month / 12, month % 12);
    FormulasCountMonths(index);
  }

  /** Any twelve successive months last 365 or 366 days. */
  lemma YearSpan(index: int)
    ensures 365 <= Span(index, 12) <= 366
  {
    MonthsOn(index, 12);
    FormulasCountMonths(index);
    FormulasCountMonths(index + 12);
    TwelveMonths(index);
  }

  lemma TwelveMonths(index: int)
    ensures 365 <= MakeMonth(index + 12) - MakeMonth(index) <= 366
  {
    DivisionIs(index + 12, 12, index / 12 + 1, index % 12);
    SameMonthNextYear(index / 12, index % 12);
  }

  lemma NoTwoLeapYears(y: int)
    ensures !(Leap(y) && Leap(y + 1))
  {
  }

  lemma LeapDay(leap: bool, m: int)
    requires 0 <= m < 12
    ensures DaysBeforeMonth(leap, m) == DaysBeforeMonth(false, m) + (if leap && 2 <= m then 1 else 0)
  {
  }

  lemma SameMonthNextYear(y: int, m: int)
    requires 0 <= m < 12
    ensures 365 <= MonthStart(y + 1, m) - MonthStart(y, m) <= 366
  {
    YearLength(y);
    NoTwoLeapYears(y);
    DaysInYear(Leap(y));
    LeapDay(Leap(y), m);
    LeapDay(Leap(y + 1), m);
  }

  /**
   Roll-over: a day that the target month lacks becomes one of the first three days of the
   month after it; every other day stays in the target month.
   */
  lemma RollOver(t: CivilTime, months: int)
    requires ValidTime(t)
    ensures var target, due := MonthIndex(t) + months, DayAfterMonths(t, months);
            if t.day <= LengthOfMonth(target) then
              due == FirstOfMonth(target) + t.day - 1 < FirstOfMonth(target + 1)
            else
              var late := t.day - LengthOfMonth(target);
              1 <= late <= 3 && due == FirstOfMonth(target + 1) + late - 1
  {
    var target := MonthIndex(t) + months;
    MonthsOn(target, 1);
    assert Sum(LengthOfMonth, target, 1) == LengthOfMonth(target);
  }
}
