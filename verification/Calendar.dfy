/** Dates, month arithmetic and recurring periods, after the proleptic Gregorian calendar. */
module Calendar {
  import opened Common

  /** A point in time: a civil date and the microsecond of the day. */
  datatype DateTime = DateTime(year: int, month: int, day: int, tod: int)

  datatype Period = Weekly | Monthly | Yearly

  predicate Leap(y: int) {
    y % 4 == 0 && (y % 100 != 0 || y % 400 == 0)
  }

  /** `calendar.monthrange(year, month)[1]` */
  function MonthLength(y: int, m: int): int {
    if m == 2 then (if Leap(y) then 29 else 28)
    else if m == 4 || m == 6 || m == 9 || m == 11 then 30
    else 31
  }

  predicate Valid(d: DateTime) {
    1 <= d.month <= 12 && 1 <= d.day <= MonthLength(d.year, d.month)
  }

  /** Months counted from year zero. */
  function MonthIndex(d: DateTime): int {
    d.year * 12 + d.month - 1
  }

  function LengthOfMonth(index: int): int {
    MonthLength(index / 12, index % 12 + 1)
  }

  predicate Before(a: DateTime, b: DateTime) {
    || MonthIndex(a) < MonthIndex(b)
    || (MonthIndex(a) == MonthIndex(b) && (a.day < b.day || (a.day == b.day && a.tod < b.tod)))
  }

  /** Shifts the month, keeping the day unless the new month is too short. */
  function AddMonths(d: DateTime, months: int): DateTime {
    var index := d.month - 1 + months;
    var year := d.year + index / 12;
    var month := index % 12 + 1;
    d.(year := year, month := month, day := Min(d.day, MonthLength(year, month)))
  }

  /** Seven days on; a week crosses at most one month end. */
  function AddWeek(d: DateTime): DateTime {
    var day := d.day + 7;
    var length := MonthLength(d.year, d.month);
    if day <= length then d.(day := day)
    else if d.month == 12 then d.(year := d.year + 1, month := 1, day := day - length)
    else d.(month := d.month + 1, day := day - length)
  }

  function AdvancePeriod(d: DateTime, p: Period): DateTime {
    match p
    case Weekly => AddWeek(d)
    case Yearly => AddMonths(d, 12)
    case Monthly => AddMonths(d, 1)
  }

  // ---- Month arithmetic -----------------------------------------------------------

  /** The month moves by exactly `months`, the day is the old one or the last of a shorter month. */
  lemma AddMonthsMoves(d: DateTime, months: int)
    requires Valid(d)
    ensures var e := AddMonths(d, months);
            && Valid(e)
            && MonthIndex(e) == MonthIndex(d) + months
            && e.day == Min(d.day, LengthOfMonth(MonthIndex(d) + months))
            && e.tod == d.tod
  {
    var index := d.month - 1 + months;
    assert (MonthIndex(d) + months) / 12 == d.year + index / 12;
    assert (MonthIndex(d) + months) % 12 == index % 12;
  }

  lemma DateFromIndex(d: DateTime, e: DateTime)
    requires Valid(d) && Valid(e)
    requires MonthIndex(d) == MonthIndex(e) && d.day == e.day && d.tod == e.tod
    ensures d == e
  {
  }

  /** More months is later, and any positive number is later than none. */
  lemma AddMonthsIncreases(d: DateTime, m: int, n: int)
    requires Valid(d) && m < n
    ensures Before(AddMonths(d, m), AddMonths(d, n))
    ensures m == 0 ==> AddMonths(d, m) == d
  {
    hide AddMonths, LengthOfMonth;
    AddMonthsMoves(d, m);
    AddMonthsMoves(d, n);
    if m == 0 {
      LengthOfOwnMonth(d);
      DateFromIndex(AddMonths(d, 0), d);
    }
  }

  lemma LengthOfOwnMonth(d: DateTime)
    requires Valid(d)
    ensures d.day <= LengthOfMonth(MonthIndex(d))
  {
  }

  lemma LengthBounds(index: int)
    ensures 28 <= LengthOfMonth(index) <= 31
  {
  }

  /** Up to the 28th nothing is ever cut, so shifts add up and can be undone. */
  lemma AddMonthsComposes(d: DateTime, m: int, n: int)
    requires Valid(d) && d.day <= 28
    ensures AddMonths(AddMonths(d, m), n) == AddMonths(d, m + n)
    ensures AddMonths(AddMonths(d, m), -m) == d
  {
    AddMonthsMoves(d, m);
    LengthBounds(MonthIndex(d) + m);
    AddMonthsMoves(AddMonths(d, m), n);
    LengthBounds(MonthIndex(d) + m + n);
    AddMonthsMoves(d, m + n);
    DateFromIndex(AddMonths(AddMonths(d, m), n), AddMonths(d, m + n));
    AddMonthsMoves(AddMonths(d, m), -m);
    LengthBounds(MonthIndex(d));
    DateFromIndex(AddMonths(AddMonths(d, m), -m), d);
  }

  // ---- Repeated monthly steps -------------------------------------------------------

  function MonthlySteps(d: DateTime, k: nat): DateTime {
    if k == 0 then d else AddMonths(MonthlySteps(d, k - 1), 1)
  }

  /** The shortest of the start day and the months visited in k steps. */
  function ShortestVisited(d: DateTime, k: nat): int {
    if k == 0 then d.day else Min(ShortestVisited(d, k - 1), LengthOfMonth(MonthIndex(d) + k))
  }

  /** After k monthly steps the day is the least of the start day and every month length visited. */
  lemma {:induction false} MonthlyStepsDay(d: DateTime, k: nat)
    requires Valid(d)
    ensures var e := MonthlySteps(d, k);
            Valid(e) && MonthIndex(e) == MonthIndex(d) + k && e.day == ShortestVisited(d, k) && e.tod == d.tod
  {
    hide AddMonths, LengthOfMonth;
    if k > 0 {
      MonthlyStepsDay(d, k - 1);
      AddMonthsMoves(MonthlySteps(d, k - 1), 1);
    }
  }

  lemma {:induction false} ShortestVisitedBounds(d: DateTime, k: nat, j: nat)
    requires j <= k
    ensures ShortestVisited(d, k) <= ShortestVisited(d, j)
    ensures j > 0 ==> ShortestVisited(d, k) <= LengthOfMonth(MonthIndex(d) + j)
    ensures ShortestVisited(d, k) <= d.day
  {
    if k > 0 {
      if j < k {
        ShortestVisitedBounds(d, k - 1, j);
      } else {
        ShortestVisitedBounds(d, k - 1, 0);
      }
    }
  }

  /**
    Stepping month by month and shifting once agree exactly when no month passed on the way is
    shorter than the day finally reached by the single shift; otherwise the day has slipped for good.
   */
  lemma MonthlyDrift(d: DateTime, k: nat)
    requires Valid(d) && k > 0
    ensures MonthlySteps(d, k) == AddMonths(d, k) <==> ShortestVisited(d, k - 1) >= Min(d.day, LengthOfMonth(MonthIndex(d) + k))
    ensures d.day <= 28 ==> MonthlySteps(d, k) == AddMonths(d, k)
  {
    MonthlyStepsDay(d, k);
    AddMonthsMoves(d, k);
    ShortestVisitedBounds(d, k - 1, 0);
    if MonthlySteps(d, k).day == AddMonths(d, k).day {
      DateFromIndex(MonthlySteps(d, k), AddMonths(d, k));
    }
    if d.day <= 28 { NeverCut(d, k - 1); }
  }

  /** From 31 January, two steps pass through a February and end on its last day; one shift keeps the 31st. */
  lemma DriftFromJanuary(year: int, tod: int)
    ensures var d := DateTime(year, 1, 31, tod);
            && MonthlySteps(d, 2) == DateTime(year, 3, if Leap(year) then 29 else 28, tod)
            && AddMonths(d, 2) == DateTime(year, 3, 31, tod)
            && MonthlySteps(d, 2) != AddMonths(d, 2)
  {
    var d := DateTime(year, 1, 31, tod);
    assert MonthlySteps(d, 1) == AddMonths(d, 1);
  }

  lemma {:induction false} NeverCut(d: DateTime, k: nat)
    requires d.day <= 28
    ensures ShortestVisited(d, k) == d.day
  {
    if k > 0 {
      NeverCut(d, k - 1);
      LengthBounds(MonthIndex(d) + k);
    }
  }

  // ---- Weeks ---------------------------------------------------------------------------

  function DaysBeforeYear(y: int): int {
    365 * (y - 1) + (y - 1) / 4 - (y - 1) / 100 + (y - 1) / 400
  }

  function DaysBeforeMonth(y: int, m: int): int
    decreases m
  {
    if m <= 1 then 0 else DaysBeforeMonth(y, m - 1) + MonthLength(y, m - 1)
  }

  /** Day number in the proleptic Gregorian calendar. */
  function Ordinal(d: DateTime): int {
    DaysBeforeYear(d.year) + DaysBeforeMonth(d.year, d.month) + d.day
  }

  lemma YearLength(y: int)
    ensures DaysBeforeYear(y + 1) == DaysBeforeYear(y) + if Leap(y) then 366 else 365
  {
    Carry(y, 4);
    Carry(y, 100);
    Carry(y, 400);
    Centuries(y);
  }

  lemma Carry(y: int, n: int)
    requires n == 4 || n == 100 || n == 400
    ensures y / n == (y - 1) / n + if y % n == 0 then 1 else 0
  {
  }

  lemma Centuries(y: int)
    ensures y % 400 == 0 ==> y % 100 == 0
    ensures y % 100 == 0 ==> y % 4 == 0
  {
    hide Leap, DaysBeforeYear;
    if y % 400 == 0 { MultipleOfHundred(4 * (y / 400)); }
    if y % 100 == 0 { MultipleOfFour(25 * (y / 100)); }
  }

  lemma MultipleOfHundred(q: int)
    ensures (100 * q) % 100 == 0
  {
  }

  lemma MultipleOfFour(q: int)
    ensures (4 * q) % 4 == 0
  {
  }

  lemma DecemberEnds(y: int)
    ensures DaysBeforeMonth(y, 12) + 31 == if Leap(y) then 366 else 365
  {
    assert DaysBeforeMonth(y, 3) == 31 + MonthLength(y, 2);
    assert DaysBeforeMonth(y, 5) == DaysBeforeMonth(y, 3) + 61;
    assert DaysBeforeMonth(y, 7) == DaysBeforeMonth(y, 5) + 61;
    assert DaysBeforeMonth(y, 9) == DaysBeforeMonth(y, 7) + 62;
    assert DaysBeforeMonth(y, 11) == DaysBeforeMonth(y, 9) + 61;
    assert DaysBeforeMonth(y, 12) == DaysBeforeMonth(y, 11) + 30;
  }

  /** A week is seven days of the calendar, whatever months or years it crosses. */
  lemma AddWeekAddsSevenDays(d: DateTime)
    requires Valid(d)
    ensures Valid(AddWeek(d)) && Ordinal(AddWeek(d)) == Ordinal(d) + 7 && AddWeek(d).tod == d.tod
  {
    if d.day + 7 > MonthLength(d.year, d.month) && d.month == 12 {
      hide Leap, DaysBeforeYear;
      YearLength(d.year);
      DecemberEnds(d.year);
    } else {
      hide Leap, DaysBeforeYear;
    }
  }

  lemma AdvanceIncreases(d: DateTime, p: Period)
    requires Valid(d)
    ensures Valid(AdvancePeriod(d, p)) && Before(d, AdvancePeriod(d, p))
  {
    match p
    case Weekly =>
    case Monthly => AddMonthsMoves(d, 1);
    case Yearly => AddMonthsMoves(d, 12);
  }

  /** A period is seven days, one month or twelve, with the day cut to the month's length. */
  lemma AdvanceMoves(d: DateTime, p: Period)
    requires Valid(d)
    ensures var e := AdvancePeriod(d, p);
            && e.tod == d.tod
            && match p
               case Weekly => Ordinal(e) == Ordinal(d) + 7
               case Monthly => MonthIndex(e) == MonthIndex(d) + 1 && e.day == Min(d.day, LengthOfMonth(MonthIndex(d) + 1))
               case Yearly => MonthIndex(e) == MonthIndex(d) + 12 && e.day == Min(d.day, LengthOfMonth(MonthIndex(d) + 12))
  {
    hide Ordinal, LengthOfMonth, AddWeek, AddMonths;
    AddWeekAddsSevenDays(d);
    AddMonthsMoves(d, 1);
    AddMonthsMoves(d, 12);
  }

  // ---- Order and day numbers -------------------------------------------------------------

  /** The lengths of the months, and how many days of the year precede each. */
  lemma MonthTable(y: int)
    ensures var leap := if y % 4 == 0 && (y % 100 != 0 || y % 400 == 0) then 1 else 0;
            && MonthLength(y, 1) == 31 && MonthLength(y, 2) == 28 + leap && MonthLength(y, 3) == 31 && MonthLength(y, 4) == 30
            && MonthLength(y, 5) == 31 && MonthLength(y, 6) == 30 && MonthLength(y, 7) == 31 && MonthLength(y, 8) == 31
            && MonthLength(y, 9) == 30 && MonthLength(y, 10) == 31 && MonthLength(y, 11) == 30 && MonthLength(y, 12) == 31
  {
  }

  /** The day number before the first of the month. */
  function MonthStart(index: int): int {
    DaysBeforeYear(index / 12) + DaysBeforeMonth(index / 12, index % 12 + 1)
  }

  lemma MonthStartStep(index: int)
    ensures MonthStart(index + 1) == MonthStart(index) + LengthOfMonth(index)
  {
    hide Leap, DaysBeforeYear;
    var y := index / 12;
    if index % 12 == 11 {
      assert (index + 1) / 12 == y + 1 && (index + 1) % 12 == 0;
      YearLength(y);
      DecemberEnds(y);
    } else {
      assert (index + 1) / 12 == y && (index + 1) % 12 == index % 12 + 1;
    }
  }

  lemma {:induction false} MonthStartsIncrease(i: int, j: int)
    requires i < j
    ensures MonthStart(i) + LengthOfMonth(i) <= MonthStart(j)
    decreases j - i
  {
    hide MonthStart, LengthOfMonth;
    MonthStartStep(i);
    if i + 1 < j {
      MonthStartsIncrease(i + 1, j);
      LengthBounds(i + 1);
    }
  }

  /** The order of dates is the order of day numbers, and of the time of day within one. */
  lemma BeforeMeansEarlier(a: DateTime, b: DateTime)
    requires Valid(a) && Valid(b)
    ensures Before(a, b) <==> Ordinal(a) < Ordinal(b) || (Ordinal(a) == Ordinal(b) && a.tod < b.tod)
  {
    OrdinalFromIndex(a);
    OrdinalFromIndex(b);
    LengthOfOwnMonth(a);
    LengthOfOwnMonth(b);
    hide MonthStart, LengthOfMonth, Ordinal;
    if MonthIndex(a) < MonthIndex(b) { MonthStartsIncrease(MonthIndex(a), MonthIndex(b)); }
    if MonthIndex(b) < MonthIndex(a) { MonthStartsIncrease(MonthIndex(b), MonthIndex(a)); }
  }

  lemma OrdinalFromIndex(d: DateTime)
    requires Valid(d)
    ensures Ordinal(d) == MonthStart(MonthIndex(d)) + d.day
  {
    assert MonthIndex(d) / 12 == d.year && MonthIndex(d) % 12 == d.month - 1;
  }
}
