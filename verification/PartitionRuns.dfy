/**
 Creating and attaching partitions (Client.Partition of clients/database/postgres/partition.go)
 as a step machine. Any number of service instances run it against one database; every
 database call can fail, before or after it took effect. CREATE and ATTACH go to the
 database outside the transaction, so each takes effect on its own and no rollback undoes it.

 Of Postgres the model assumes that ATTACH rejects a table that is missing or attached
 already, and a range that overlaps an attached one.
 */
module PartitionRuns {
  import opened Calendar
  import opened Partitions
  import opened PartitionCoverage

  datatype Range = Range(lo: int, hi: int)

  datatype Db = Db(tables: set<string>, attached: map<string, Range>)

  /** How the tables of the partitions are named; the service uses TableName. */
  type Naming = TableId -> string

  ghost predicate Injective(name: Naming) {
    forall t: TableId, u: TableId :: name(t) == name(u) ==> t == u
  }

  lemma TableNameInjective()
    ensures Injective(TableName)
  {
    forall t: TableId, u: TableId | TableName(t) == TableName(u) ensures t == u {
      NameDeterminesDay(t, u);
    }
  }

  function RangeOf(p: Period): Range { Range(p.start, p.end) }

  predicate Overlap(a: Range, b: Range) { a.lo < b.hi && b.lo < a.hi }

  predicate CanAttach(db: Db, table: string, r: Range) {
    && table in db.tables && table !in db.attached
    && forall other :: other in db.attached ==> !Overlap(db.attached[other], r)
  }

  // -------------------------------------------------------------------- one run

  /** The database call a run is about to make for its current period. */
  datatype Point = Begin | Select | Create | AttachCreated | CheckAttached | AttachDangling | Commit

  /** A run for a start instant and a number of days: the periods to create and the one it has reached.
      The last field records history: the periods for which some call, commits aside, came back
      with an error. */
  datatype Run = Run(start: int, days: int, todo: seq<Period>, next: nat, at: Point, failed: set<nat>)

  function NewRun(start: int, days: int): Run {
    Run(start, days, Prefill(start, days, SERVICE), 0, Begin, {})
  }

  /** What a database call comes back with: its own answer, an error without effect, or an error
      although it took effect. */
  datatype Fault = NoFault | Lost | AckLost

  function Skip(run: Run): Run { run.(next := run.next + 1, at := Begin) }

  function Attached(db: Db, table: string, r: Range): Db {
    if CanAttach(db, table, r) then db.(attached := db.attached[table := r]) else db
  }

  function DbAfter(name: Naming, db: Db, run: Run, fault: Fault): Db
    requires run.next < |run.todo|
  {
    var p := run.todo[run.next];
    if fault.Lost? then db
    else
      match run.at
      case Create => db.(tables := db.tables + {name(p.table)})
      case AttachCreated => Attached(db, name(p.table), RangeOf(p))
      case AttachDangling => Attached(db, name(p.table), RangeOf(p))
      case _ => db
  }

  /** Where the run stands after its call: a failed call ends the work on the current period only. */
  function Proceed(name: Naming, db: Db, run: Run, fault: Fault): Run
    requires run.next < |run.todo|
  {
    var p := run.todo[run.next];
    var table := name(p.table);
    if run.at.Commit? then Skip(run)
    else if !fault.NoFault? then Skip(run)
    else
      match run.at
      case Begin => run.(at := Select)
      case Select => run.(at := if table in db.tables then CheckAttached else Create)
      case Create => run.(at := AttachCreated)
      case CheckAttached => run.(at := if table in db.attached then Commit else AttachDangling)
      case _ => if CanAttach(db, table, RangeOf(p)) then run.(at := Commit) else Skip(run)
  }

  predicate Fails(run: Run, fault: Fault) { !fault.NoFault? && !run.at.Commit? }

  function RunAfter(name: Naming, db: Db, run: Run, fault: Fault): Run
    requires run.next < |run.todo|
  {
    Proceed(name, db, run, fault).(failed := if Fails(run, fault) then run.failed + {run.next} else run.failed)
  }

  /** A run goes through its periods one by one, and a failed call costs it no other period. */
  lemma OnePeriodAtATime(name: Naming, db: Db, run: Run, fault: Fault)
    requires run.next < |run.todo|
    ensures var after := RunAfter(name, db, run, fault);
            && run.next <= after.next <= run.next + 1 && after.todo == run.todo
            && (after.next == run.next + 1 ==> after.at == Begin)
            && after.failed == run.failed + (if !fault.NoFault? && !run.at.Commit? then {run.next} else {})
  {
  }

  // ------------------------------------------------------------------ all instances

  datatype World = World(db: Db, runs: map<nat, Run>)

  datatype Step = Launch(id: nat, start: int, days: int) | Advance(id: nat, fault: Fault)

  predicate Finished(run: Run) { run.next >= |run.todo| }

  predicate Enabled(w: World, step: Step) {
    match step
    case Launch(id, _, days) => days <= MAX_PREFILL_DAYS && (id in w.runs ==> Finished(w.runs[id]))
    case Advance(id, _) => id in w.runs && !Finished(w.runs[id])
  }

  function Apply(name: Naming, w: World, step: Step): World
    requires Enabled(w, step)
  {
    match step
    case Launch(id, start, days) => w.(runs := w.runs[id := NewRun(start, days)])
    case Advance(id, fault) =>
      var run := w.runs[id];
      World(DbAfter(name, w.db, run, fault), w.runs[id := RunAfter(name, w.db, run, fault)])
  }

  predicate Legal(name: Naming, w: World, steps: seq<Step>)
    decreases |steps|
  {
    steps == [] || (Enabled(w, steps[0]) && Legal(name, Apply(name, w, steps[0]), steps[1..]))
  }

  function Execute(name: Naming, w: World, steps: seq<Step>): World
    requires Legal(name, w, steps)
    decreases |steps|
  {
    if steps == [] then w else Execute(name, Apply(name, w, steps[0]), steps[1..])
  }

  // --------------------------------------------------------------------- invariants

  ghost predicate Disjoint(db: Db) {
    forall a, b :: a in db.attached && b in db.attached && a != b ==> !Overlap(db.attached[a], db.attached[b])
  }

  predicate DayAligned(r: Range) {
    r.lo == Midnight(DayOf(r.lo)) && r.hi == Midnight(DayOf(r.hi)) && r.lo < r.hi
  }

  ghost predicate AllDayAligned(db: Db) {
    forall a :: a in db.attached ==> DayAligned(db.attached[a])
  }

  /** Attached tables exist, and their ranges are whole days that do not overlap. */
  ghost predicate Sane(db: Db) {
    db.attached.Keys <= db.tables && Disjoint(db) && AllDayAligned(db)
  }

  /** Some run asks for this day under this name format. */
  ghost predicate Requestable(f: Format, day: int) {
    exists start: int, days: int, k: int ::
      days <= MAX_PREFILL_DAYS && 0 <= k < |Prefill(start, days, SERVICE)|
      && Prefill(start, days, SERVICE)[k] == DayPeriod(f, day)
  }

  /** When a table is attached under the name of a day, that day is covered. */
  ghost predicate WellNamed(name: Naming, db: Db) {
    forall f: Format, day: int ::
      Requestable(f, day) && name(DayPeriod(f, day).table) in db.attached ==> Covered(db, day)
  }

  ghost predicate DbOk(name: Naming, db: Db) { Sane(db) && WellNamed(name, db) }

  /** Tables are never dropped, partitions never detached and never given another range. */
  ghost predicate Grows(a: Db, b: Db) {
    && a.tables <= b.tables
    && (forall t :: t in a.attached ==> t in b.attached && b.attached[t] == a.attached[t])
  }

  predicate Contains(r: Range, day: int) { r.lo <= Midnight(day) && Midnight(day + 1) <= r.hi }

  ghost predicate Covered(db: Db, day: int) {
    exists t :: t in db.attached && Contains(db.attached[t], day)
  }

  ghost predicate CoveredOnce(db: Db, day: int) {
    && Covered(db, day)
    && (forall t, u ::
          t in db.attached && u in db.attached && Contains(db.attached[t], day) && Contains(db.attached[u], day) ==>
            t == u)
  }

  /** The period is the whole day it is named after, and one that runs ask for. */
  ghost predicate IsDay(p: Period) {
    p == DayPeriod(p.table.format, DayOf(p.start)) && Requestable(p.table.format, DayOf(p.start))
  }

  /** The periods of the run are those of its start and number of days. */
  predicate Planned(run: Run) {
    run.days <= MAX_PREFILL_DAYS && run.todo == Prefill(run.start, run.days, SERVICE)
  }

  ghost predicate RunOk(name: Naming, db: Db, run: Run) {
    && (!run.at.Begin? ==> run.next < |run.todo|)
    && (run.at.AttachCreated? || run.at.CheckAttached? || run.at.AttachDangling? ==>
          name(run.todo[run.next].table) in db.tables)
    && (run.at.Commit? ==> Covered(db, DayOf(run.todo[run.next].start)))
    && (forall k: nat :: k < run.next && k < |run.todo| && k !in run.failed ==> Covered(db, DayOf(run.todo[k].start)))
  }

  ghost predicate RunsPlanned(runs: map<nat, Run>) {
    forall id :: id in runs ==> Planned(runs[id])
  }

  ghost predicate RunsOk(name: Naming, db: Db, runs: map<nat, Run>) {
    forall id :: id in runs ==> RunOk(name, db, runs[id])
  }

  ghost predicate Inv(name: Naming, w: World) {
    && DbOk(name, w.db)
    && RunsPlanned(w.runs)
    && RunsOk(name, w.db, w.runs)
  }

  // ------------------------------------------------------------- the database calls

  lemma GrowsKeepsCovered(a: Db, b: Db, day: int)
    requires Grows(a, b) && Covered(a, day)
    ensures Covered(b, day)
  {
    var t :| t in a.attached && Contains(a.attached[t], day);
    assert t in b.attached && Contains(b.attached[t], day);
  }

  lemma GrowsKeepsRunOk(name: Naming, a: Db, b: Db, run: Run)
    requires Grows(a, b) && RunOk(name, a, run)
    ensures RunOk(name, b, run)
  {
    if run.at.Commit? {
      GrowsKeepsCovered(a, b, DayOf(run.todo[run.next].start));
    }
    forall k: nat | k < run.next && k < |run.todo| && k !in run.failed ensures Covered(b, DayOf(run.todo[k].start)) {
      GrowsKeepsCovered(a, b, DayOf(run.todo[k].start));
    }
  }

  lemma PlannedIsDay(run: Run, k: int)
    requires Planned(run) && 0 <= k < |run.todo|
    ensures IsDay(run.todo[k])
  {
    PeriodIsADay(run.start, run.days, SERVICE, k);
    TruncateToMidnight(0, PrefillDay(run.start, SERVICE, k));
  }

  lemma AttachKeepsNames(name: Naming, db: Db, f: Format, day: int)
    requires Injective(name) && WellNamed(name, db)
    ensures WellNamed(name, Attached(db, name(DayPeriod(f, day).table), RangeOf(DayPeriod(f, day))))
  {
    var p := DayPeriod(f, day);
    var after := Attached(db, name(p.table), RangeOf(p));
    forall g: Format, d: int | Requestable(g, d) && name(DayPeriod(g, d).table) in after.attached
      ensures Covered(after, d)
    {
      var q := DayPeriod(g, d);
      if name(q.table) in db.attached {
        GrowsKeepsCovered(db, after, d);
      } else {
        assert q.table == p.table;
        DateOfInjective(d, day);
        assert Contains(after.attached[name(p.table)], day);
      }
    }
  }

  lemma AttachKeepsRanges(db: Db, table: string, r: Range)
    requires Sane(db) && DayAligned(r)
    ensures Sane(Attached(db, table, r)) && Grows(db, Attached(db, table, r))
  {
  }

  lemma DayIsAligned(f: Format, day: int)
    ensures DayAligned(RangeOf(DayPeriod(f, day)))
  {
    TruncateToMidnight(0, day);
    TruncateToMidnight(0, day + 1);
  }

  lemma AttachKeepsDb(name: Naming, db: Db, p: Period)
    requires Injective(name) && DbOk(name, db) && IsDay(p)
    ensures var after := Attached(db, name(p.table), RangeOf(p));
            DbOk(name, after) && Grows(db, after)
  {
    DayIsAligned(p.table.format, DayOf(p.start));
    AttachKeepsRanges(db, name(p.table), RangeOf(p));
    AttachKeepsNames(name, db, p.table.format, DayOf(p.start));
  }

  /** When ATTACH refuses an existing table, its day is covered already: because the table is attached,
      or by a day-aligned range that overlaps the day. */
  lemma RefusedMeansCovered(name: Naming, db: Db, f: Format, day: int)
    requires DbOk(name, db) && Requestable(f, day) && name(DayPeriod(f, day).table) in db.tables
    requires !CanAttach(db, name(DayPeriod(f, day).table), RangeOf(DayPeriod(f, day)))
    ensures Covered(db, day)
  {
    var p := DayPeriod(f, day);
    var table := name(p.table);
    if table !in db.attached {
      var other :| other in db.attached && Overlap(db.attached[other], RangeOf(p));
      OverlapMeansContains(db.attached[other], day);
      assert Contains(db.attached[other], day);
    }
  }

  lemma OverlapMeansContains(r: Range, day: int)
    requires DayAligned(r) && Overlap(r, Range(Midnight(day), Midnight(day + 1)))
    ensures Contains(r, day)
  {
    assert DayOf(r.lo) <= day && day + 1 <= DayOf(r.hi);
  }

  /** A database call keeps the attached ranges disjoint, day-aligned and well named, and takes
      nothing away, whether it fails or not. */
  lemma CallKeepsDb(name: Naming, db: Db, run: Run, fault: Fault)
    requires Injective(name) && DbOk(name, db) && run.next < |run.todo| && IsDay(run.todo[run.next])
    ensures DbOk(name, DbAfter(name, db, run, fault))
    ensures Grows(db, DbAfter(name, db, run, fault))
  {
    AttachKeepsDb(name, db, run.todo[run.next]);
    CreateKeepsDb(name, db, name(run.todo[run.next].table));
  }

  lemma CreateKeepsDb(name: Naming, db: Db, table: string)
    requires DbOk(name, db)
    ensures DbOk(name, db.(tables := db.tables + {table})) && Grows(db, db.(tables := db.tables + {table}))
  {
    var after := db.(tables := db.tables + {table});
    forall f: Format, day: int | Requestable(f, day) && name(DayPeriod(f, day).table) in after.attached
      ensures Covered(after, day)
    {
      GrowsKeepsCovered(db, after, day);
    }
  }

  /** If a run moves past its current period without a failed call, that period's day is covered. */
  ghost predicate AdvanceCovers(name: Naming, db: Db, run: Run, fault: Fault)
    requires run.next < |run.todo|
  {
    var after := RunAfter(name, db, run, fault);
    after.at.Commit? || (run.next !in after.failed && after.next > run.next) ==>
      Covered(DbAfter(name, db, run, fault), DayOf(run.todo[run.next].start))
  }

  lemma CallCovers(name: Naming, db: Db, run: Run, fault: Fault)
    requires DbOk(name, db) && RunOk(name, db, run) && run.next < |run.todo| && IsDay(run.todo[run.next])
    ensures AdvanceCovers(name, db, run, fault)
  {
    var p := run.todo[run.next];
    var day := DayOf(p.start);
    var table := name(p.table);
    var db' := DbAfter(name, db, run, fault);
    if (run.at.AttachCreated? || run.at.AttachDangling?) && fault.NoFault? {
      if CanAttach(db, table, RangeOf(p)) {
        assert db'.attached[table] == RangeOf(p) && Contains(db'.attached[table], day);
      } else {
        RefusedMeansCovered(name, db, p.table.format, day);
      }
    }
  }

  lemma CallKeepsRun(name: Naming, db: Db, run: Run, fault: Fault)
    requires RunOk(name, db, run) && run.next < |run.todo|
    requires Grows(db, DbAfter(name, db, run, fault)) && AdvanceCovers(name, db, run, fault)
    ensures RunOk(name, DbAfter(name, db, run, fault), RunAfter(name, db, run, fault))
  {
    GrowsKeepsRunOk(name, db, DbAfter(name, db, run, fault), run);
  }

  lemma OtherRunsKept(name: Naming, a: Db, b: Db, runs: map<nat, Run>, id: nat, run: Run)
    requires Grows(a, b) && RunsOk(name, a, runs) && RunOk(name, b, run)
    ensures RunsOk(name, b, runs[id := run])
  {
    var after := runs[id := run];
    forall i | i in after ensures RunOk(name, b, after[i]) {
      if i != id {
        GrowsKeepsRunOk(name, a, b, runs[i]);
      }
    }
  }

  lemma PlansKept(name: Naming, db: Db, runs: map<nat, Run>, id: nat, fault: Fault)
    requires RunsPlanned(runs) && id in runs && runs[id].next < |runs[id].todo|
    ensures RunsPlanned(runs[id := RunAfter(name, db, runs[id], fault)])
  {
    var run, after := runs[id], RunAfter(name, db, runs[id], fault);
    assert after.todo == run.todo && after.start == run.start && after.days == run.days;
  }

  /** One database call of one run: the database stays in order and the run keeps its account. */
  lemma CallKeepsBoth(name: Naming, db: Db, run: Run, fault: Fault)
    requires Injective(name) && DbOk(name, db) && RunOk(name, db, run) && Planned(run) && run.next < |run.todo|
    ensures DbOk(name, DbAfter(name, db, run, fault)) && Grows(db, DbAfter(name, db, run, fault))
    ensures RunOk(name, DbAfter(name, db, run, fault), RunAfter(name, db, run, fault))
  {
    PlannedIsDay(run, run.next);
    CallKeepsDb(name, db, run, fault);
    CallCovers(name, db, run, fault);
    CallKeepsRun(name, db, run, fault);
  }

  lemma AdvanceKeepsInv(name: Naming, w: World, id: nat, fault: Fault)
    requires Injective(name) && Inv(name, w) && Enabled(w, Advance(id, fault))
    ensures Inv(name, Apply(name, w, Advance(id, fault)))
    ensures Grows(w.db, Apply(name, w, Advance(id, fault)).db)
  {
    var run := w.runs[id];
    CallKeepsBoth(name, w.db, run, fault);
    PlansKept(name, w.db, w.runs, id, fault);
    OtherRunsKept(name, w.db, DbAfter(name, w.db, run, fault), w.runs, id, RunAfter(name, w.db, run, fault));
  }

  lemma StepKeepsInv(name: Naming, w: World, step: Step)
    requires Injective(name) && Inv(name, w) && Enabled(w, step)
    ensures Inv(name, Apply(name, w, step)) && Grows(w.db, Apply(name, w, step).db)
  {
    match step
    case Launch(id, start, days) => OtherRunsKept(name, w.db, w.db, w.runs, id, NewRun(start, days));
    case Advance(id, fault) => AdvanceKeepsInv(name, w, id, fault);
  }

  // ---------------------------------------------------------------- whole histories

  /** Over every history of any number of instances with failures at any call: attached ranges stay
      pairwise disjoint and day-aligned, and nothing is ever detached, moved or dropped. */
  lemma {:induction false} HistoryKeepsInv(name: Naming, w: World, steps: seq<Step>)
    requires Injective(name) && Inv(name, w) && Legal(name, w, steps)
    ensures Inv(name, Execute(name, w, steps)) && Grows(w.db, Execute(name, w, steps).db)
    decreases |steps|
  {
    if steps != [] {
      StepKeepsInv(name, w, steps[0]);
      HistoryKeepsInv(name, Apply(name, w, steps[0]), steps[1..]);
    }
  }

  lemma CoveredIsOnce(db: Db, day: int)
    requires Disjoint(db) && Covered(db, day)
    ensures CoveredOnce(db, day)
  {
  }

  function Fresh(db: Db): World { World(db, map[]) }

  /** A run is finished, and none of its own calls for the k-th period failed. */
  predicate DayDone(w: World, id: nat, k: nat) {
    id in w.runs && Finished(w.runs[id]) && k < |w.runs[id].todo| && k !in w.runs[id].failed
  }

  /** From any database whose partitions are disjoint, day-aligned and well named, with tables
      possibly left over unattached, and whatever the other instances do, a finished run leaves
      the day of every period for which none of its own calls failed in exactly one attached
      range, whatever failed for its other periods. */
  lemma DoneDayIsCovered(name: Naming, db: Db, steps: seq<Step>, id: nat, k: nat)
    requires Injective(name) && DbOk(name, db) && Legal(name, Fresh(db), steps)
    requires DayDone(Execute(name, Fresh(db), steps), id, k)
    ensures var w := Execute(name, Fresh(db), steps);
            CoveredOnce(w.db, DayOf(w.runs[id].todo[k].start))
  {
    HistoryKeepsInv(name, Fresh(db), steps);
    var w := Execute(name, Fresh(db), steps);
    assert RunOk(name, w.db, w.runs[id]);
    CoveredIsOnce(w.db, DayOf(w.runs[id].todo[k].start));
  }

  lemma PrefilledPeriod(run: Run, day: int) returns (k: nat)
    requires Planned(run) && Prefilled(run.start, run.days, SERVICE, day)
    ensures k < |run.todo| && DayOf(run.todo[k].start) == day
  {
    var i :| 0 <= i < |run.todo| && run.todo[i].start == Midnight(day);
    TruncateToMidnight(0, day);
    k := i;
  }

  /** A run without failed calls leaves every day it was asked for in exactly one attached range. */
  lemma CleanRunCovers(name: Naming, db: Db, steps: seq<Step>, id: nat, day: int)
    requires Injective(name) && DbOk(name, db) && Legal(name, Fresh(db), steps)
    requires var w := Execute(name, Fresh(db), steps);
             && id in w.runs && Finished(w.runs[id]) && w.runs[id].failed == {}
             && w.runs[id].days <= MAX_PREFILL_DAYS && Prefilled(w.runs[id].start, w.runs[id].days, SERVICE, day)
    ensures CoveredOnce(Execute(name, Fresh(db), steps).db, day)
  {
    HistoryKeepsInv(name, Fresh(db), steps);
    var k := PrefilledPeriod(Execute(name, Fresh(db), steps).runs[id], day);
    DoneDayIsCovered(name, db, steps, id, k);
  }
}
