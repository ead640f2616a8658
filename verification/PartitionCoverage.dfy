/**
 Which days a prefill covers. The documentation promises the next n days, today included;
 the code skips the first of the next month whenever the run crosses into it.
 */
module PartitionCoverage {
  import opened Calendar
  import opened Partitions

  /** The service's own offset, and the one that would give consecutive days. */
  const SERVICE: int := 1
  const CONSECUTIVE: int := 0

  /** For every start and 1 <= n <= 28: n periods, each a whole UTC day named after its calendar date,
      in increasing order without overlap, no two with the same table name. */
  lemma PrefillShape(start: int, days: int, skip: int)
    requires 0 <= skip <= 1 && 1 <= days <= MAX_PREFILL_DAYS
    ensures var periods := Prefill(start, days, skip);
            && |periods| == days
            && (forall k :: 0 <= k < days ==>
                  && Truncate(periods[k].start) == periods[k].start
                  && periods[k].end == periods[k].start + Midnight(1)
                  && periods[k].table.date == DateOf(DayOf(periods[k].start))
                  && (periods[k].table.format == Current <==>
                        periods[k].table.date.month == DateOf(DayOf(start)).month))
            && (forall j, k :: 0 <= j < k < days ==>
                  periods[j].end <= periods[k].start && TableName(periods[j].table) != TableName(periods[k].table))
  {
    var periods := Prefill(start, days, skip);
    PeriodIsADay(start, days, skip, 0);
    forall k | 0 <= k < days
      ensures Truncate(periods[k].start) == periods[k].start
      ensures periods[k].end == periods[k].start + Midnight(1)
      ensures periods[k].table.date == DateOf(DayOf(periods[k].start))
      ensures periods[k].table.format == Current <==> periods[k].table.date.month == DateOf(DayOf(start)).month
    {
      FormatByMonth(start, skip, k);
      PeriodIsADay(start, days, skip, k);
      TruncateToMidnight(0, PrefillDay(start, skip, k));
    }
    forall j, k | 0 <= j < k < days
      ensures periods[j].end <= periods[k].start
      ensures TableName(periods[j].table) != TableName(periods[k].table)
    {
      PeriodIsADay(start, days, skip, j);
      PeriodIsADay(start, days, skip, k);
      assert PrefillDay(start, skip, j) < PrefillDay(start, skip, k);
      DistinctDaysDistinctNames(PrefillFormat(start, j), PrefillDay(start, skip, j),
                                PrefillFormat(start, k), PrefillDay(start, skip, k));
    }
  }

  lemma DistinctDaysDistinctNames(f: Format, m: int, g: Format, n: int)
    requires m != n
    ensures TableName(DayPeriod(f, m).table) != TableName(DayPeriod(g, n).table)
  {
    if TableName(DayPeriod(f, m).table) == TableName(DayPeriod(g, n).table) {
      NameDeterminesDay(DayPeriod(f, m).table, DayPeriod(g, n).table);
      DateOfInjective(m, n);
    }
  }

  /** The days a prefill covers. */
  ghost predicate Prefilled(start: int, days: int, skip: int, day: int)
    requires 0 <= skip <= 1 && days <= MAX_PREFILL_DAYS
  {
    exists k :: 0 <= k < |Prefill(start, days, skip)| && Prefill(start, days, skip)[k].start == Midnight(day)
  }

  lemma PrefilledDays(start: int, days: int, skip: int, day: int)
    requires 0 <= skip <= 1 && 1 <= days <= MAX_PREFILL_DAYS
    ensures Prefilled(start, days, skip, day) <==> exists k :: 0 <= k < days && PrefillDay(start, skip, k) == day
  {
    PeriodIsADay(start, days, skip, 0);
    if Prefilled(start, days, skip, day) {
      var k :| 0 <= k < days && Prefill(start, days, skip)[k].start == Midnight(day);
      PeriodIsADay(start, days, skip, k);
      assert PrefillDay(start, skip, k) == day;
    }
    if k :| 0 <= k < days && PrefillDay(start, skip, k) == day {
      PeriodIsADay(start, days, skip, k);
      assert Prefill(start, days, skip)[k].start == Midnight(day);
    }
  }

  /** Exact coverage: today to the end of the month, then a consecutive run whose first day is the
      first of the next month plus the offset. */
  lemma ExactCoverage(start: int, days: int, skip: int, day: int)
    requires 0 <= skip <= 1 && 1 <= days <= MAX_PREFILL_DAYS
    ensures var today := DayOf(start);
            var monthEnd := today + Remaining(today);
            Prefilled(start, days, skip, day) <==>
              || (today <= day < today + days && day < monthEnd)
              || monthEnd + skip <= day < today + days + skip
  {
    PrefilledDays(start, days, skip, day);
    var today := DayOf(start);
    var monthEnd := today + Remaining(today);
    if today <= day < today + days && day < monthEnd {
      assert PrefillDay(start, skip, day - today) == day;
    }
    if monthEnd + skip <= day < today + days + skip {
      assert PrefillDay(start, skip, day - today - skip) == day;
    }
  }

  ghost predicate CoversNextDays(start: int, days: int, skip: int)
    requires 0 <= skip <= 1 && days <= MAX_PREFILL_DAYS
  {
    forall day :: DayOf(start) <= day < DayOf(start) + days ==> Prefilled(start, days, skip, day)
  }

  /** The documented promise, n days in advance with today included, holds for the service exactly
      when the days fit into the current month. */
  lemma DocumentedIffWithinMonth(start: int, days: int)
    requires 1 <= days <= MAX_PREFILL_DAYS
    ensures CoversNextDays(start, days, SERVICE) <==> days <= Remaining(DayOf(start))
  {
    var today := DayOf(start);
    if days <= Remaining(today) {
      forall day | today <= day < today + days ensures Prefilled(start, days, SERVICE, day) {
        ExactCoverage(start, days, SERVICE, day);
      }
    } else {
      ExactCoverage(start, days, SERVICE, today + Remaining(today));
      assert !Prefilled(start, days, SERVICE, today + Remaining(today));
    }
  }

  /** The day left out is the first of the next month. */
  lemma SkippedDay(start: int, days: int)
    requires 1 <= days <= MAX_PREFILL_DAYS && days > Remaining(DayOf(start))
    ensures var skipped := DayOf(start) + Remaining(DayOf(start));
            DateOf(skipped) == FirstOfNextMonth(DateOf(DayOf(start))) && !Prefilled(start, days, SERVICE, skipped)
  {
    var today := DayOf(start);
    DateAfterMonth(today, DateOf(today), Remaining(today) - 1);
    ExactCoverage(start, days, SERVICE, today + Remaining(today));
  }

  /** A concrete crossing: on 20 May of any year, 21 days leave out 1 June. */
  lemma JuneFirstIsSkipped(start: int, year: int)
    requires DateOf(DayOf(start)) == Civil(year, 5, 20)
    ensures DateOf(DayOf(start) + 12) == Civil(year, 6, 1)
    ensures !Prefilled(start, 21, SERVICE, DayOf(start) + 12)
  {
    SkippedDay(start, 21);
  }

  /** With the offset one smaller the promise holds for every start and every number of days. */
  lemma SmallerOffsetIsConsecutive(start: int, days: int, day: int)
    requires 1 <= days <= MAX_PREFILL_DAYS
    ensures Prefilled(start, days, CONSECUTIVE, day) <==> DayOf(start) <= day < DayOf(start) + days
  {
    ExactCoverage(start, days, CONSECUTIVE, day);
  }
}
