/**
 The daily partitions of the request metrics table to create in advance
 (PartitionsForPeriod of clients/database/postgres/partition.go), for a start in UTC.
 */
module Partitions {
  import opened Wrappers
  import opened Text
  import opened Calendar

  const MAX_PREFILL_DAYS: int := 28
  const BASE: string := "proxied_request_metrics"

  /** A partition to create: the table that TableName spells, and its half-open range. */
  datatype Period = Period(table: TableId, start: int, end: int)

  datatype TableId = TableId(format: Format, date: Civil)

  /** The two table name formats: one for the rest of the current month, one for the next month. */
  datatype Format = Current | Future

  function YearTag(f: Format): string { if f == Current then "_year_" else "_year" }

  function MonthTag(f: Format): string { if f == Current then "month_" else "month" }

  function DayTag(f: Format): string { if f == Current then "day_" else "day" }

  /** proxied_request_metrics_year_%d_month_%d_day_%d, or the same without the underscore before each number. */
  function TableName(t: TableId): string {
    var f, c := t.format, t.date;
    BASE + (YearTag(f) + (SignedDecimal(c.year) + ['_']
      + (MonthTag(f) + (SignedDecimal(c.month) + ['_']
        + (DayTag(f) + SignedDecimal(c.day))))))
  }

  datatype TooManyDays = TooManyDays(days: int)

  /** The countdown loop that generates the periods of one month: day after day from an instant. */
  method GenerateMonth(f: Format, from: int, date: Civil, count: int) returns (periods: seq<Period>)
    ensures periods == MonthRun(f, date, DayOf(from), count)
  {
    periods := [];
    var todo, index := count, 0;
    while todo > 0
      invariant index == |periods| && (count > 0 ==> todo == count - index >= 0) && (count <= 0 ==> todo == count && index == 0)
      invariant forall k :: 0 <= k < index ==> periods[k] == RunPeriod(f, date, DayOf(from), k)
      decreases todo
    {
      TruncateToMidnight(from, index);
      TruncateToMidnight(from, index + 1);
      periods := periods + [
        Period(TableId(f, Civil(date.year, date.month, date.day + index)),
               Truncate(from + Midnight(index)), Truncate(from + Midnight(index + 1)))];
      todo := todo - 1;
      index := index + 1;
    }
  }

  /** PartitionsForPeriod. The parameter skip is 1 in the service: the first day generated for the
      next month is start + (remaining + skip) days. */
  method PartitionsForPeriod(start: int, days: int, skip: int)
    returns (r: Result<seq<Period>, TooManyDays>)
    requires 0 <= skip <= 1
    ensures r.Err? <==> days > MAX_PREFILL_DAYS
    ensures r.Err? ==> r.error.days == days
    ensures r.Ok? ==> r.value == Prefill(start, days, skip)
  {
    if days > MAX_PREFILL_DAYS {
      return Err(TooManyDays(days));
    }
    var current := DateOf(DayOf(start));
    var daysInCurrentMonth := DaysInMonth(current);
    DaysInMonthCorrect(current);
    var remaining := daysInCurrentMonth - current.day + 1;
    var thisMonth := if remaining < days then remaining else days;
    var periods := GenerateMonth(Current, start, current, thisMonth);
    if days > remaining {
      var future := start + Midnight(remaining + skip);
      TruncateToMidnight(start, remaining + skip);
      var later := GenerateMonth(Future, future, DateOf(DayOf(future)), days - remaining);
      periods := periods + later;
    }
    return Ok(periods);
  }

  // ------------------------------------------------------- what is generated, day by day

  /** Days left in the month of this day, the day included. */
  function Remaining(day: int): (n: int)
    ensures 1 <= n <= 31
  {
    MonthLength(DateOf(day).year, DateOf(day).month) - DateOf(day).day + 1
  }

  /** The k-th period of a run through one month: the day of the month is simply counted up. */
  function RunPeriod(f: Format, date: Civil, first: int, k: int): Period {
    Period(TableId(f, date.(day := date.day + k)), Midnight(first + k), Midnight(first + k + 1))
  }

  function MonthRun(f: Format, date: Civil, first: int, count: int): (periods: seq<Period>)
    ensures |periods| == if count > 0 then count else 0
    ensures forall k :: 0 <= k < |periods| ==> periods[k] == RunPeriod(f, date, first, k)
  {
    seq(if count > 0 then count else 0, k => RunPeriod(f, date, first, k))
  }

  function TwoMonths(today: int, date: Civil, remaining: int, next: int, nextDate: Civil, days: int): seq<Period> {
    if days > remaining then
      MonthRun(Current, date, today, remaining) + MonthRun(Future, nextDate, next, days - remaining)
    else MonthRun(Current, date, today, days)
  }

  lemma TwoMonthsAt(today: int, date: Civil, remaining: int, next: int, nextDate: Civil, days: int, k: int)
    requires 0 <= remaining && 0 <= k < days
    ensures var periods := TwoMonths(today, date, remaining, next, nextDate, days);
            && |periods| == days
            && periods[k] == if k < remaining then RunPeriod(Current, date, today, k)
                             else RunPeriod(Future, nextDate, next, k - remaining)
  {
  }

  /** The periods generated for a start instant and a number of days. */
  function Prefill(start: int, days: int, skip: int): seq<Period> {
    var today := DayOf(start);
    var next := today + Remaining(today) + skip;
    TwoMonths(today, DateOf(today), Remaining(today), next, DateOf(next), days)
  }

  /** The day number that the k-th generated period is for. */
  function PrefillDay(start: int, skip: int, k: int): int {
    var today := DayOf(start);
    if k < Remaining(today) then today + k else today + k + skip
  }

  function PrefillFormat(start: int, k: int): Format {
    if k < Remaining(DayOf(start)) then Current else Future
  }

  /** The one-day period of a day under a name format. */
  function DayPeriod(f: Format, day: int): Period {
    Period(TableId(f, DateOf(day)), Midnight(day), Midnight(day + 1))
  }

  /** Counting up the day of the month names the right day as long as the month lasts. */
  lemma RunPeriodIsADay(f: Format, first: int, k: int)
    requires 0 <= k && DateOf(first).day + k <= MonthLength(DateOf(first).year, DateOf(first).month)
    ensures RunPeriod(f, DateOf(first), first, k) == DayPeriod(f, first + k)
  {
    DateWithinMonth(first, k);
  }

  /** The first day generated for the next month leaves room for the rest of 28 days, even in February. */
  lemma NextMonthHasRoom(today: int, skip: int)
    requires 0 <= skip <= 1
    ensures var c := DateOf(today + Remaining(today) + skip);
            c.day == 1 + skip && MonthLength(c.year, c.month) >= MAX_PREFILL_DAYS
  {
    DateAfterMonth(today, DateOf(today), Remaining(today) - 1);
    DateWithinMonth(today + Remaining(today), skip);
  }

  /** Every generated period is one whole UTC day, and its name spells the calendar date of that day:
      the day of the month never runs over, in leap years, in December or at month ends. */
  lemma PeriodIsADay(start: int, days: int, skip: int, k: int)
    requires 0 <= skip <= 1 && 0 <= k < days <= MAX_PREFILL_DAYS
    ensures |Prefill(start, days, skip)| == days
    ensures Prefill(start, days, skip)[k] == DayPeriod(PrefillFormat(start, k), PrefillDay(start, skip, k))
  {
    var today := DayOf(start);
    var remaining := Remaining(today);
    var next := today + remaining + skip;
    TwoMonthsAt(today, DateOf(today), remaining, next, DateOf(next), days, k);
    if k < remaining {
      RunPeriodIsADay(Current, today, k);
    } else {
      NextMonthHasRoom(today, skip);
      RunPeriodIsADay(Future, next, k - remaining);
    }
  }

  /** Days of the current month bear names of one format, days of the next month of the other. */
  lemma FormatByMonth(start: int, skip: int, k: int)
    requires 0 <= skip <= 1 && 0 <= k < MAX_PREFILL_DAYS
    ensures PrefillFormat(start, k) == Current <==>
            DateOf(PrefillDay(start, skip, k)).month == DateOf(DayOf(start)).month
  {
    var today := DayOf(start);
    var remaining := Remaining(today);
    if k < remaining {
      DateWithinMonth(today, k);
    } else {
      NextMonthHasRoom(today, skip);
      DateAfterMonth(today, DateOf(today), remaining - 1);
      DateWithinMonth(today + remaining, skip + k - remaining);
    }
  }

  // ------------------------------------------------------------------------ names

  /** The words of a table name between its underscores: the table, then year, month and day of the
      date, each with its number next to it or as the next word. */
  function NameWords(t: TableId): seq<string> {
    var y, m, d := SignedDecimal(t.date.year), SignedDecimal(t.date.month), SignedDecimal(t.date.day);
    ["proxied", "request", "metrics"] + match t.format
      case Current => ["year", y, "month", m, "day", d]
      case Future => ["year" + y, "month" + m, "day" + d]
  }

  lemma JoinCons(head: string, rest: seq<string>, c: char)
    requires |rest| >= 1
    ensures Join([head] + rest, c) == head + [c] + Join(rest, c)
  {
    assert ([head] + rest)[1..] == rest;
  }

  lemma JoinTwoMore(a: string, b: string, rest: seq<string>, c: char)
    requires |rest| >= 1
    ensures Join([a, b] + rest, c) == a + [c] + (b + [c] + Join(rest, c))
  {
    JoinCons(b, rest, c);
    JoinCons(a, [b] + rest, c);
    assert [a, b] + rest == [a] + ([b] + rest);
  }

  lemma Regroup(a: string, b: string, c: string)
    ensures a + b + c == a + (b + c)
  {
  }

  /** A number after its tag, followed by the rest of the name, in either format. */
  lemma NumberedWord(f: Format, tag: string, word: string, number: string, rest: seq<string>)
    requires |rest| >= 1 && tag == if f == Current then word + ['_'] else word
    ensures tag + (number + ['_'] + Join(rest, '_'))
            == Join((if f == Current then [word, number] else [word + number]) + rest, '_')
  {
    var x := Join(rest, '_');
    if f == Current {
      JoinTwoMore(word, number, rest, '_');
    } else {
      JoinCons(word + number, rest, '_');
      Regroup(number, ['_'], x);
      Regroup(word, number, ['_'] + x);
      Regroup(word + number, ['_'], x);
    }
  }

  lemma LastWord(f: Format, tag: string, word: string, number: string)
    requires tag == if f == Current then word + ['_'] else word
    ensures tag + number == Join(if f == Current then [word, number] else [word + number], '_')
  {
    JoinTwo(word, number, '_');
  }

  lemma ThreeWords(a: string, b: string, c: string, x: string)
    ensures a + ['_'] + (b + ['_'] + c) + (['_'] + x) == a + ['_'] + (b + ['_'] + (c + ['_'] + x))
  {
  }

  lemma BaseWords()
    ensures BASE == "proxied" + ['_'] + ("request" + ['_'] + "metrics")
  {
  }

  lemma TableWords(a: string, b: string, c: string, base: string, rest: seq<string>)
    requires |rest| >= 1 && base == a + ['_'] + (b + ['_'] + c)
    ensures base + (['_'] + Join(rest, '_')) == Join([a, b, c] + rest, '_')
  {
    JoinCons(c, rest, '_');
    JoinTwoMore(a, b, [c] + rest, '_');
    assert [a, b, c] + rest == [a, b] + ([c] + rest);
    ThreeWords(a, b, c, Join(rest, '_'));
  }

  lemma NameIsJoined(t: TableId)
    ensures TableName(t) == Join(NameWords(t), '_')
  {
    var f := t.format;
    var y, m, d := SignedDecimal(t.date.year), SignedDecimal(t.date.month), SignedDecimal(t.date.day);
    var days := if f == Current then ["day", d] else ["day" + d];
    var months := (if f == Current then ["month", m] else ["month" + m]) + days;
    var years := (if f == Current then ["year", y] else ["year" + y]) + months;
    var yearTag := if f == Current then "year_" else "year";
    LastWord(f, DayTag(f), "day", d);
    NumberedWord(f, MonthTag(f), "month", m, days);
    NumberedWord(f, yearTag, "year", y, months);
    BaseWords();
    TableWords("proxied", "request", "metrics", BASE, years);
    assert YearTag(f) == ['_'] + yearTag;
    Regroup(['_'], yearTag, y + ['_'] + Join(months, '_'));
    assert NameWords(t) == ["proxied", "request", "metrics"] + years;
  }

  /** A table name splits into the table, then year, month and day of the date, in this order. */
  lemma NameSpellsDate(t: TableId)
    ensures Split(TableName(t), '_') == NameWords(t)
  {
    NameIsJoined(t);
    NumeralFree(t.date.year);
    NumeralFree(t.date.month);
    NumeralFree(t.date.day);
    assert AllFree(NameWords(t), '_');
    SplitJoin(NameWords(t), '_');
  }

  lemma NumeralFree(n: int)
    ensures '_' !in SignedDecimal(n)
  {
    SignedDecimalCharacters(n);
  }

  /** A format and a date are read back from the name: no two days, and no two formats, share a table. */
  lemma NameDeterminesDay(t: TableId, u: TableId)
    requires TableName(t) == TableName(u)
    ensures t == u
  {
    NameSpellsDate(t);
    NameSpellsDate(u);
    var v, w := NameWords(t), NameWords(u);
    assert v == w && |v| == if t.format == Current then 9 else 6;
    if t.format == Current {
      assert v[4] == w[4] && v[6] == w[6] && v[8] == w[8];
    } else {
      assert v[3] == w[3] && v[4] == w[4] && v[5] == w[5];
      DropPrefix("year", SignedDecimal(t.date.year), SignedDecimal(u.date.year));
      DropPrefix("month", SignedDecimal(t.date.month), SignedDecimal(u.date.month));
      DropPrefix("day", SignedDecimal(t.date.day), SignedDecimal(u.date.day));
    }
    SignedDecimalInjective(t.date.year, u.date.year);
    SignedDecimalInjective(t.date.month, u.date.month);
    SignedDecimalInjective(t.date.day, u.date.day);
  }
}
