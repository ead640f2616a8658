/**
 From which databases runs always cover their days: exactly from those in which no table
 is attached under the name of a day that nothing covers. The code asks only whether the
 table of that name is attached, never for which range.
 */
module PartitionExactness {
  import opened Calendar
  import opened Partitions
  import opened PartitionCoverage
  import opened PartitionRuns

  /** Whatever happens from this database on, a finished run has covered the day of every period for
      which none of its own calls failed. */
  ghost predicate AlwaysCovers(name: Naming, db: Db) {
    forall steps: seq<Step>, id: nat, k: nat ::
      Legal(name, Fresh(db), steps) && DayDone(Execute(name, Fresh(db), steps), id, k) ==>
        CoveredOnce(Execute(name, Fresh(db), steps).db,
                    DayOf(Execute(name, Fresh(db), steps).runs[id].todo[k].start))
  }

  // ----------------------------------------------------------------- necessity

  /** A run without failed calls has a period whose table is attached although nothing covers its day. */
  ghost predicate Blocked(name: Naming, db: Db, run: Run, k: nat) {
    && Planned(run) && run.failed == {} && k < |run.todo|
    && (!run.at.Begin? ==> run.next < |run.todo|)
    && name(run.todo[k].table) in db.attached && !Covered(db, DayOf(run.todo[k].start))
  }

  lemma PlannedDaysDiffer(run: Run, j: nat, k: nat)
    requires Planned(run) && j < |run.todo| && k < |run.todo| && DayOf(run.todo[j].start) == DayOf(run.todo[k].start)
    ensures j == k
  {
    PeriodIsADay(run.start, run.days, SERVICE, j);
    PeriodIsADay(run.start, run.days, SERVICE, k);
    TruncateToMidnight(0, PrefillDay(run.start, SERVICE, j));
    TruncateToMidnight(0, PrefillDay(run.start, SERVICE, k));
  }

  /** Attaching another day of the run does not help. */
  lemma StaysUncovered(name: Naming, db: Db, run: Run, k: nat)
    requires Blocked(name, db, run, k) && run.next < |run.todo|
    ensures !Covered(DbAfter(name, db, run, NoFault), DayOf(run.todo[k].start))
  {
    var p, day := run.todo[run.next], DayOf(run.todo[k].start);
    var after := DbAfter(name, db, run, NoFault);
    PlannedIsDay(run, run.next);
    forall t | t in after.attached ensures !Contains(after.attached[t], day) {
      if t !in db.attached && Contains(after.attached[t], day) {
        assert after.attached[t] == RangeOf(p);
        OnlyItsOwnDay(DayOf(p.start), day);
        PlannedDaysDiffer(run, run.next, k);
      }
    }
  }

  lemma OnlyItsOwnDay(d: int, day: int)
    requires Contains(Range(Midnight(d), Midnight(d + 1)), day)
    ensures d == day
  {
  }

  lemma BlockedStep(name: Naming, db: Db, run: Run, k: nat)
    requires Blocked(name, db, run, k) && run.next < |run.todo|
    ensures Blocked(name, DbAfter(name, db, run, NoFault), RunAfter(name, db, run, NoFault), k)
    ensures RunAfter(name, db, run, NoFault).start == run.start && RunAfter(name, db, run, NoFault).days == run.days
  {
    StaysUncovered(name, db, run, k);
  }

  function Rank(at: Point): nat {
    match at
    case Begin => 5
    case Select => 4
    case Create => 3
    case CheckAttached => 3
    case AttachCreated => 2
    case AttachDangling => 2
    case Commit => 1
  }

  /** Left alone, a blocked run finishes without a failed call and leaves its day uncovered. */
  lemma {:induction false} BlockedRunFinishes(name: Naming, w: World, id: nat, k: nat) returns (steps: seq<Step>)
    requires id in w.runs && Blocked(name, w.db, w.runs[id], k)
    ensures Legal(name, w, steps)
    ensures var v := Execute(name, w, steps);
            && id in v.runs && Finished(v.runs[id]) && Blocked(name, v.db, v.runs[id], k)
            && v.runs[id].start == w.runs[id].start && v.runs[id].days == w.runs[id].days
    decreases |w.runs[id].todo| - w.runs[id].next, Rank(w.runs[id].at)
  {
    if Finished(w.runs[id]) {
      steps := [];
    } else {
      BlockedStep(name, w.db, w.runs[id], k);
      var step := Advance(id, NoFault);
      var rest := BlockedRunFinishes(name, Apply(name, w, step), id, k);
      steps := [step] + rest;
      assert steps[1..] == rest;
    }
  }

  lemma LegalCons(name: Naming, w: World, step: Step, rest: seq<Step>)
    requires Enabled(w, step) && Legal(name, Apply(name, w, step), rest)
    ensures Legal(name, w, [step] + rest)
    ensures Execute(name, w, [step] + rest) == Execute(name, Apply(name, w, step), rest)
  {
    assert ([step] + rest)[1..] == rest;
  }

  lemma BlockedLaunchFails(name: Naming, db: Db, start: int, days: int, k: nat)
    requires days <= MAX_PREFILL_DAYS && Blocked(name, db, NewRun(start, days), k)
    ensures !AlwaysCovers(name, db)
  {
    var w := Fresh(db);
    var launch := Launch(0, start, days);
    var rest := BlockedRunFinishes(name, Apply(name, w, launch), 0, k);
    LegalCons(name, w, launch, rest);
    assert DayDone(Execute(name, w, [launch] + rest), 0, k);
  }

  lemma UncoveredNameFails(name: Naming, db: Db, f: Format, day: int)
    requires Requestable(f, day) && name(DayPeriod(f, day).table) in db.attached && !Covered(db, day)
    ensures !AlwaysCovers(name, db)
  {
    var start: int, days: int, k: int :|
      days <= MAX_PREFILL_DAYS && 0 <= k < |Prefill(start, days, SERVICE)|
      && Prefill(start, days, SERVICE)[k] == DayPeriod(f, day);
    var run := NewRun(start, days);
    assert run.todo[k] == DayPeriod(f, day);
    assert DayOf(run.todo[k].start) == day by {
      TruncateToMidnight(0, day);
    }
    assert Blocked(name, db, run, k);
    BlockedLaunchFails(name, db, start, days, k);
  }

  /** The main theorem: for every database of disjoint whole-day partitions, every finished run of
      every history leaves the day of each period for which none of its own calls failed in
      exactly one attached range, if and only if no day that a run can ask for has its table
      attached elsewhere while the day is uncovered. */
  lemma CoverageIffWellNamed(name: Naming, db: Db)
    requires Injective(name) && Sane(db)
    ensures AlwaysCovers(name, db) <==> WellNamed(name, db)
  {
    if WellNamed(name, db) {
      forall steps: seq<Step>, id: nat, k: nat |
        Legal(name, Fresh(db), steps) && DayDone(Execute(name, Fresh(db), steps), id, k)
        ensures CoveredOnce(Execute(name, Fresh(db), steps).db,
                            DayOf(Execute(name, Fresh(db), steps).runs[id].todo[k].start))
      {
        DoneDayIsCovered(name, db, steps, id, k);
      }
    } else {
      var f: Format, day: int :|
        Requestable(f, day) && name(DayPeriod(f, day).table) in db.attached && !Covered(db, day);
      UncoveredNameFails(name, db, f, day);
    }
  }

  /** Any day can be asked for: a run of one day on that day. */
  lemma TodayIsRequestable(day: int)
    ensures Requestable(Current, day)
  {
    TruncateToMidnight(0, day);
    PeriodIsADay(Midnight(day), 1, SERVICE, 0);
    assert Prefill(Midnight(day), 1, SERVICE)[0] == DayPeriod(Current, day);
  }

  /** One table, attached for the day after a given day. */
  function OneTable(table: string, day: int): Db {
    Db({table}, map[table := Range(Midnight(day + 1), Midnight(day + 2))])
  }

  lemma OneTableIsSane(table: string, day: int)
    ensures Sane(OneTable(table, day)) && !Covered(OneTable(table, day), day)
  {
    TruncateToMidnight(0, day + 1);
    TruncateToMidnight(0, day + 2);
  }

  /** A concrete database that fails: one table, attached for the day after the one it is named after. */
  lemma MisattachedTableFails(name: Naming, day: int)
    ensures var db := OneTable(name(DayPeriod(Current, day).table), day);
            Sane(db) && !AlwaysCovers(name, db)
  {
    var table := name(DayPeriod(Current, day).table);
    OneTableIsSane(table, day);
    TodayIsRequestable(day);
    UncoveredNameFails(name, OneTable(table, day), Current, day);
  }
}
