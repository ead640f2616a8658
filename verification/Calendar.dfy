/**
 The proleptic Gregorian calendar in UTC, as Go's time package computes it. Days are
 numbered from 1 January of year 1, the zero of time.Time; instants are nanoseconds
 from that midnight.
 */
module Calendar {
  /** The instant a day starts; a day has 24 * 60 * 60 * 10^9 nanoseconds. */
  function Midnight(day: int): int { day * 86_400_000_000_000 }

  /** The day an instant falls on. */
  function DayOf(t: int): int { t / 86_400_000_000_000 }

  /** Time.Truncate(24 * time.Hour). */
  function Truncate(t: int): int { t - t % 86_400_000_000_000 }

  lemma TruncateToMidnight(t: int, k: int)
    ensures DayOf(t + Midnight(k)) == DayOf(t) + k
    ensures Truncate(t + Midnight(k)) == Midnight(DayOf(t) + k)
  {
  }

  datatype Civil = Civil(year: int, month: int, day: int)

  predicate Leap(y: int) { y % 4 == 0 && (y % 100 != 0 || y % 400 == 0) }

  function MonthLength(y: int, m: int): (n: int)
    requires 1 <= m <= 12
    ensures 28 <= n <= 31
  {
    if m == 2 then (if Leap(y) then 29 else 28)
    else if m == 4 || m == 6 || m == 9 || m == 11 then 30
    else 31
  }

  function YearLength(y: int): int { if Leap(y) then 366 else 365 }

  predicate Valid(c: Civil) {
    1 <= c.month <= 12 && 1 <= c.day <= MonthLength(c.year, c.month)
  }

  /** The day after, by turning the page of the calendar. */
  function NextDay(c: Civil): (n: Civil)
    requires Valid(c)
    ensures Valid(n)
  {
    if c.day < MonthLength(c.year, c.month) then Civil(c.year, c.month, c.day + 1)
    else FirstOfNextMonth(c)
  }

  function FirstOfNextMonth(c: Civil): (n: Civil)
    requires Valid(c)
    ensures Valid(n)
  {
    if c.month < 12 then Civil(c.year, c.month + 1, 1) else Civil(c.year + 1, 1, 1)
  }

  // ------------------------------------------------------------ day numbers

  /** Days from 1 January of year 1 to 1 January of year y, negative for earlier years. */
  function DaysBeforeYear(y: int): int
    decreases if y >= 1 then y - 1 else 1 - y
  {
    if y == 1 then 0
    else if y > 1 then DaysBeforeYear(y - 1) + YearLength(y - 1)
    else DaysBeforeYear(y + 1) - YearLength(y)
  }

  lemma YearStep(y: int)
    ensures DaysBeforeYear(y + 1) == DaysBeforeYear(y) + YearLength(y)
  {
  }

  /** Days of year y before month m; m == 13 stands for the whole year. */
  function DaysBeforeMonth(y: int, m: int): (n: int)
    requires 1 <= m <= 13
    ensures 0 <= n <= 31 * (m - 1)
  {
    if m == 1 then 0 else DaysBeforeMonth(y, m - 1) + MonthLength(y, m - 1)
  }

  lemma WholeYear(y: int)
    ensures DaysBeforeMonth(y, 13) == YearLength(y)
  {
    assert DaysBeforeMonth(y, 2) == 31;
    assert DaysBeforeMonth(y, 4) == 62 + MonthLength(y, 2);
    assert DaysBeforeMonth(y, 6) == DaysBeforeMonth(y, 4) + 61;
    assert DaysBeforeMonth(y, 8) == DaysBeforeMonth(y, 6) + 61;
    assert DaysBeforeMonth(y, 10) == DaysBeforeMonth(y, 8) + 61;
    assert DaysBeforeMonth(y, 12) == DaysBeforeMonth(y, 10) + 61;
  }

  /** Days before each month of a common year. */
  function MonthTable(m: int): int
    requires 1 <= m <= 13
  {
    [0, 31, 59, 90, 120, 151, 181, 212, 243, 273, 304, 334, 365][m - 1]
  }

  lemma MonthsFollowTable(y: int, m: int)
    requires 1 <= m <= 13
    ensures DaysBeforeMonth(y, m) == MonthTable(m) + (if m > 2 && Leap(y) then 1 else 0)
    decreases m
  {
    if m > 1 {
      MonthsFollowTable(y, m - 1);
    }
  }

  function DayNumber(c: Civil): int
    requires 1 <= c.month <= 12
  {
    DaysBeforeYear(c.year) + DaysBeforeMonth(c.year, c.month) + c.day - 1
  }

  /** Turning the page adds one to the day number. */
  lemma NextDayNumber(c: Civil)
    requires Valid(c)
    ensures DayNumber(NextDay(c)) == DayNumber(c) + 1
  {
    if c.day == MonthLength(c.year, c.month) && c.month == 12 {
      WholeYear(c.year);
      YearStep(c.year);
    }
  }

  // --------------------------------------------------- dates of day numbers

  /** The day before. */
  function PreviousDay(c: Civil): (p: Civil)
    requires Valid(c)
    ensures Valid(p) && NextDay(p) == c
  {
    if c.day > 1 then Civil(c.year, c.month, c.day - 1)
    else if c.month > 1 then Civil(c.year, c.month - 1, MonthLength(c.year, c.month - 1))
    else Civil(c.year - 1, 12, 31)
  }

  /** Time.Date for the UTC day with this number: so many pages turned from 1 January of year 1. */
  function DateOf(n: int): (c: Civil)
    ensures Valid(c)
    decreases if n >= 0 then n else -n
  {
    if n == 0 then Civil(1, 1, 1)
    else if n > 0 then NextDay(DateOf(n - 1))
    else PreviousDay(DateOf(n + 1))
  }

  lemma DateOfNextDay(n: int)
    ensures DateOf(n + 1) == NextDay(DateOf(n))
  {
  }

  lemma NumberOfNextDate(n: int)
    ensures DayNumber(DateOf(n + 1)) == DayNumber(DateOf(n)) + 1
  {
    DateOfNextDay(n);
    NextDayNumber(DateOf(n));
  }

  /** A function that starts at 0 and goes up by one at every step is the identity. */
  lemma {:induction false} CountsUp(f: int -> int, n: int)
    requires f(0) == 0 && forall k :: f(k) == f(k - 1) + 1
    ensures f(n) == n
    decreases if n >= 0 then n else -n
  {
    if n > 0 {
      CountsUp(f, n - 1);
    } else if n < 0 {
      CountsUp(f, n + 1);
      assert f(n + 1) == f(n + 1 - 1) + 1;
    }
  }

  /** Counting days and turning pages agree. */
  lemma DayNumberOfDate(n: int)
    ensures DayNumber(DateOf(n)) == n
  {
    var f := (k: int) => DayNumber(DateOf(k));
    forall k ensures f(k) == f(k - 1) + 1 {
      NumberOfNextDate(k - 1);
    }
    CountsUp(f, n);
  }

  function LeapDaysBefore(y: int): int { (y - 1) / 4 - (y - 1) / 100 + (y - 1) / 400 }

  lemma StepBy4(y: int)
    ensures y / 4 == (y - 1) / 4 + (if y % 4 == 0 then 1 else 0)
  {
  }

  lemma StepBy100(y: int)
    ensures y / 100 == (y - 1) / 100 + (if y % 100 == 0 then 1 else 0)
  {
  }

  lemma StepBy400(y: int)
    ensures y / 400 == (y - 1) / 400 + (if y % 400 == 0 then 1 else 0)
  {
  }

  lemma MultiplesNest(y: int)
    ensures y % 100 == 0 ==> y % 4 == 0
    ensures y % 400 == 0 ==> y % 100 == 0
  {
  }

  lemma LeapDayStep(y: int)
    ensures LeapDaysBefore(y + 1) == LeapDaysBefore(y) + (if Leap(y) then 1 else 0)
  {
    StepBy4(y);
    StepBy100(y);
    StepBy400(y);
    MultiplesNest(y);
  }

  lemma {:induction false} DaysBeforeYearClosed(y: int)
    ensures DaysBeforeYear(y) == 365 * (y - 1) + LeapDaysBefore(y)
    decreases if y >= 1 then y - 1 else 1 - y
  {
    if y > 1 {
      DaysBeforeYearClosed(y - 1);
      LeapDayStep(y - 1);
    } else if y < 1 {
      DaysBeforeYearClosed(y + 1);
      LeapDayStep(y);
    }
  }

  lemma {:induction false} DaysBeforeYearMonotone(y: int, z: int)
    requires y <= z
    ensures DaysBeforeYear(y) <= DaysBeforeYear(z)
    decreases z - y
  {
    if y < z {
      YearStep(y);
      DaysBeforeYearMonotone(y + 1, z);
    }
  }

  lemma {:induction false} DaysBeforeMonthMonotone(y: int, m: int, k: int)
    requires 1 <= m <= k <= 13
    ensures DaysBeforeMonth(y, m) <= DaysBeforeMonth(y, k)
    decreases k
  {
    if m < k {
      DaysBeforeMonthMonotone(y, m, k - 1);
    }
  }

  predicate Before(a: Civil, b: Civil) {
    a.year < b.year || (a.year == b.year && (a.month < b.month || (a.month == b.month && a.day < b.day)))
  }

  /** A date lies before the first of any later month of its year. */
  lemma BeforeLaterMonth(c: Civil, m: int)
    requires Valid(c) && c.month < m <= 13
    ensures DaysBeforeMonth(c.year, c.month) + c.day <= DaysBeforeMonth(c.year, m)
  {
    DaysBeforeMonthMonotone(c.year, c.month + 1, m);
  }

  lemma BeforeLaterYear(c: Civil, y: int)
    requires Valid(c) && c.year < y
    ensures DayNumber(c) < DaysBeforeYear(y)
  {
    BeforeLaterMonth(c, 13);
    WholeYear(c.year);
    YearStep(c.year);
    DaysBeforeYearMonotone(c.year + 1, y);
  }

  /** Day numbers follow the order of dates, so a day number has only one date. */
  lemma DayNumberOrder(a: Civil, b: Civil)
    requires Valid(a) && Valid(b) && Before(a, b)
    ensures DayNumber(a) < DayNumber(b)
  {
    if a.year < b.year {
      BeforeLaterYear(a, b.year);
    } else if a.month < b.month {
      BeforeLaterMonth(a, b.month);
    }
  }

  lemma DayNumberInjective(a: Civil, b: Civil)
    requires Valid(a) && Valid(b) && DayNumber(a) == DayNumber(b)
    ensures a == b
  {
    if Before(a, b) {
      DayNumberOrder(a, b);
    } else if Before(b, a) {
      DayNumberOrder(b, a);
    }
  }

  lemma DateOfDayNumber(c: Civil)
    requires Valid(c)
    ensures DateOf(DayNumber(c)) == c
  {
    DayNumberOfDate(DayNumber(c));
    DayNumberInjective(DateOf(DayNumber(c)), c);
  }

  /** The Unix epoch: 1 January 1970 is day 719162. */
  lemma EpochDate(n: int)
    requires n == 719162
    ensures DateOf(n) == Civil(1970, 1, 1)
  {
    var c := Civil(1970, 1, 1);
    DaysBeforeYearClosed(c.year);
    assert DayNumber(c) == n;
    DateOfDayNumber(c);
  }

  /** Two days with the same date are the same day. */
  lemma DateOfInjective(m: int, n: int)
    requires DateOf(m) == DateOf(n)
    ensures m == n
  {
    DayNumberOfDate(m);
    DayNumberOfDate(n);
  }

  /** Within a month the day of the month counts up by one a day. */
  lemma {:induction false} DateWithinMonth(n: int, k: int)
    requires 0 <= k && DateOf(n).day + k <= MonthLength(DateOf(n).year, DateOf(n).month)
    ensures DateOf(n + k) == Civil(DateOf(n).year, DateOf(n).month, DateOf(n).day + k)
    decreases k
  {
    if k > 0 {
      DateWithinMonth(n, k - 1);
      DateOfNextDay(n + k - 1);
    }
  }

  lemma NextAfterLast(c: Civil)
    requires Valid(c)
    ensures NextDay(Civil(c.year, c.month, MonthLength(c.year, c.month))) == FirstOfNextMonth(c)
  {
  }

  /** The day after the last of the month is the first of the next one. */
  lemma DateAfterMonth(n: int, c: Civil, k: int)
    requires c == DateOf(n) && k == MonthLength(c.year, c.month) - c.day
    ensures DateOf(n + k + 1) == FirstOfNextMonth(c)
  {
    DateWithinMonth(n, k);
    DateOfNextDay(n + k);
    NextAfterLast(c);
  }

  // ------------------------------------------- time.Date with overflowing fields

  /** Day number of time.Date(y, m, d): an out-of-range month carries into the year,
      an out-of-range day into the month. */
  function NormalizedDay(y: int, m: int, d: int): int {
    DayNumber(Civil(y + (m - 1) / 12, (m - 1) % 12 + 1, d))
  }

  lemma MonthInRange(y: int, m: int, d: int)
    ensures 1 <= m <= 12 ==> NormalizedDay(y, m, d) == DayNumber(Civil(y, m, d))
    ensures m == 13 ==> NormalizedDay(y, m, d) == DayNumber(Civil(y + 1, 1, d))
  {
    if 1 <= m <= 12 {
      assert (m - 1) / 12 == 0 && (m - 1) % 12 == m - 1;
    }
  }

  /** daysInMonth: day 0 of the following month. */
  function DaysInMonth(c: Civil): int
    requires Valid(c)
  {
    DateOf(NormalizedDay(c.year, c.month + 1, 0)).day
  }

  /** Day 0 of the following month is the last of this one, in December and in leap years too. */
  lemma DaysInMonthCorrect(c: Civil)
    requires Valid(c)
    ensures DaysInMonth(c) == MonthLength(c.year, c.month)
  {
    var last := c.(day := MonthLength(c.year, c.month));
    NextDayNumber(last);
    MonthInRange(c.year, c.month + 1, 0);
    assert NormalizedDay(c.year, c.month + 1, 0) == DayNumber(last);
    DateOfDayNumber(last);
  }

  /** Time.AddDate(100, 0, 0) on an instant. */
  function AddCentury(t: int): int {
    var c := DateOf(DayOf(t));
    Midnight(NormalizedDay(c.year + 100, c.month, c.day)) + (t - Truncate(t))
  }

  /** The same day of a later year; 29 February becomes 1 March where the year has no such day. */
  function SameDay(c: Civil, year: int): (d: Civil)
    requires Valid(c)
    ensures Valid(d)
  {
    if c.month == 2 && c.day == 29 && !Leap(year) then Civil(year, 3, 1) else Civil(year, c.month, c.day)
  }

  lemma NormalizedSameDay(c: Civil, year: int)
    requires Valid(c)
    ensures NormalizedDay(year, c.month, c.day) == DayNumber(SameDay(c, year))
  {
    MonthInRange(year, c.month, c.day);
    if SameDay(c, year) != Civil(year, c.month, c.day) {
      FebruaryOverflow(year);
    }
  }

  lemma AtTimeOfDay(day: int, t: int)
    ensures var u := Midnight(day) + (t - Truncate(t));
            DayOf(u) == day && u - Truncate(u) == t - Truncate(t)
  {
    TruncateToMidnight(t - Truncate(t), day);
  }

  lemma CenturyInstant(t: int, c: Civil)
    requires c == DateOf(DayOf(t))
    ensures AddCentury(t) == Midnight(DayNumber(SameDay(c, c.year + 100))) + (t - Truncate(t))
  {
    NormalizedSameDay(c, c.year + 100);
  }

  /** A century later it is the same day and the same time of day. */
  lemma CenturyDate(t: int, c: Civil, u: int)
    requires c == DateOf(DayOf(t)) && u == AddCentury(t)
    ensures DateOf(DayOf(u)) == SameDay(c, c.year + 100) && u - Truncate(u) == t - Truncate(t)
  {
    var later := DayNumber(SameDay(c, c.year + 100));
    CenturyInstant(t, c);
    AtTimeOfDay(later, t);
    assert DayOf(u) == later;
    DateOfDayNumber(SameDay(c, c.year + 100));
  }

  lemma FebruaryOverflow(y: int)
    requires !Leap(y)
    ensures DayNumber(Civil(y, 2, 29)) == DayNumber(Civil(y, 3, 1))
  {
    assert DaysBeforeMonth(y, 3) == DaysBeforeMonth(y, 2) + 28;
  }

  /** Only the leap day tells the months of two years apart. */
  lemma {:induction false} MonthsOfTwoYears(y: int, z: int, m: int)
    requires 1 <= m <= 12
    ensures DaysBeforeMonth(z, m) >= DaysBeforeMonth(y, m) - (if Leap(y) && !Leap(z) then 1 else 0)
  {
    if m > 1 {
      MonthsOfTwoYears(y, z, m - 1);
      if m > 3 {
        assert MonthLength(y, m - 1) == MonthLength(z, m - 1);
      } else if m == 3 {
        assert DaysBeforeMonth(y, 2) == DaysBeforeMonth(z, 2) == 31;
      }
    }
  }

  /** A century is never shorter than 36524 days. */
  lemma CenturyIsLong(t: int)
    ensures AddCentury(t) >= t + Midnight(36524)
  {
    var c := DateOf(DayOf(t));
    CenturyOfYears(c.year);
    MonthsOfTwoYears(c.year, c.year + 100, c.month);
    MonthInRange(c.year + 100, c.month, c.day);
    assert NormalizedDay(c.year + 100, c.month, c.day) >= DayNumber(c) + 36524;
    DayNumberOfDate(DayOf(t));
    TruncateToMidnight(t, 0);
  }

  lemma CenturyOfYears(y: int)
    ensures DaysBeforeYear(y + 100) >= DaysBeforeYear(y) + 36524 + (if Leap(y) && !Leap(y + 100) then 1 else 0)
  {
    DaysBeforeYearClosed(y);
    DaysBeforeYearClosed(y + 100);
    LeapDaysOfCentury(y);
  }

  lemma HundredBy4(x: int)
    ensures (x + 100) / 4 == x / 4 + 25
  {
  }

  lemma HundredBy100(x: int)
    ensures (x + 100) / 100 == x / 100 + 1
  {
  }

  lemma HundredBy400(x: int)
    ensures (x + 100) / 400 >= x / 400
  {
  }

  lemma LostLeapYear(y: int)
    requires Leap(y) && !Leap(y + 100)
    ensures y % 400 == 0
  {
  }

  lemma CenturyFrom400(y: int)
    requires y % 400 == 0
    ensures (y + 99) / 400 == (y - 1) / 400 + 1
  {
  }

  lemma LeapDaysOfCentury(y: int)
    ensures (y + 99) / 4 == (y - 1) / 4 + 25
    ensures (y + 99) / 100 == (y - 1) / 100 + 1
    ensures (y + 99) / 400 >= (y - 1) / 400
    ensures Leap(y) && !Leap(y + 100) ==> (y + 99) / 400 == (y - 1) / 400 + 1
  {
    HundredBy4(y - 1);
    HundredBy100(y - 1);
    HundredBy400(y - 1);
    if Leap(y) && !Leap(y + 100) {
      LostLeapYear(y);
      CenturyFrom400(y);
    }
  }
}
