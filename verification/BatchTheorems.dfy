/**
 What a batch guarantees under every schedule of its goroutines: order of the responses,
 WaitGroup accounting and termination, conservation of cache hits, and how status and
 headers are combined.
 */
module BatchTheorems {
  import opened Wrappers
  import opened ServiceCache
  import opened BatchProcessor
  import opened BatchProtocol

  // --------------------------------------------------------- accounting in every state

  /** In every reachable state the WaitGroup counts the goroutines that are spawned and not over, and
      cacheHits counts those past applyHeaders whose headers said HIT. */
  lemma Accounting(b: Batch, steps: seq<Step>)
    requires Legal(b, Init(b), steps)
    ensures var s := Execute(b, Init(b), steps);
            && |s.workers| == |b.scripts|
            && s.wg == |LiveWorkers(s.workers)|
            && s.shared.cacheHits == |HitWorkers(s.workers, b.scripts)|
  {
    InitInv(b);
    RunKeepsInv(b, Init(b), steps);
  }

  /** What the steps need of the invariant: slots match, and the next goroutine to spawn is new. */
  predicate Shaped(b: Batch, s: State) {
    && |s.workers| == |b.scripts|
    && (s.main.Spawning? && s.main.next < |b.scripts| ==> s.workers[s.main.next].NotSpawned?)
  }

  /** The steps in which goroutine i calls Done. */
  function DoneCalls(steps: seq<Step>, i: nat): nat {
    if steps == [] then 0
    else (if steps[0] == Finish(i) || steps[0] == Recover(i) then 1 else 0) + DoneCalls(steps[1..], i)
  }

  /** Over is final, and goroutine i becomes over in exactly the steps in which it calls Done. */
  lemma DoneStep(b: Batch, s: State, step: Step, i: nat)
    requires Shaped(b, s) && Enabled(b, s, step) && i < |s.workers|
    ensures var t := Apply(b, s, step);
            && |t.workers| == |s.workers|
            && Bit(t.workers[i].Over?) == Bit(s.workers[i].Over?) + Bit(step == Finish(i) || step == Recover(i))
  {
  }

  /** Along every run the calls of Done by goroutine i tell whether it is over. */
  lemma {:induction false} DoneCallsAlongRun(b: Batch, s: State, steps: seq<Step>, i: nat)
    requires Inv(b, s) && Legal(b, s, steps) && i < |b.scripts|
    ensures |Execute(b, s, steps).workers| == |b.scripts|
    ensures Bit(Execute(b, s, steps).workers[i].Over?) == Bit(s.workers[i].Over?) + DoneCalls(steps, i)
    decreases |steps|
  {
    if steps != [] {
      StepKeepsInv(b, s, steps[0]);
      DoneStep(b, s, steps[0], i);
      DoneCallsAlongRun(b, Apply(b, s, steps[0]), steps[1..], i);
    }
  }

  /** In no run does a goroutine call Done twice, and in every run that has returned each goroutine has
      called it exactly once, whether its handler returned or panicked. */
  lemma DoneOnce(b: Batch, steps: seq<Step>, i: nat)
    requires Legal(b, Init(b), steps) && i < |b.scripts|
    ensures DoneCalls(steps, i) <= 1
    ensures Execute(b, Init(b), steps).main.Returned? ==> DoneCalls(steps, i) == 1
  {
    InitInv(b);
    RunKeepsInv(b, Init(b), steps);
    DoneCallsAlongRun(b, Init(b), steps, i);
  }

  // ----------------------------------------------------------------------- progress

  function Sum(xs: seq<nat>): nat { if xs == [] then 0 else xs[0] + Sum(xs[1..]) }

  lemma {:induction false} SumUpdate(xs: seq<nat>, i: nat, v: nat)
    requires i < |xs|
    ensures Sum(xs[i := v]) + xs[i] == Sum(xs) + v
  {
    if i == 0 {
      assert xs[0 := v][1..] == xs[1..];
    } else {
      SumUpdate(xs[1..], i - 1, v);
      assert xs[i := v][1..] == xs[1..][i - 1 := v];
    }
  }

  function WorkLeft(w: Worker, script: Script): nat {
    match w
    case NotSpawned => |script.actions| + 5
    case Running(next, _, _) => if next <= |script.actions| then |script.actions| - next + 4 else 4
    case Stored(_) => 3
    case Merged => 2
    case Panicking => 1
    case Over => 0
  }

  function WorkList(ws: seq<Worker>, scripts: seq<Script>): (work: seq<nat>)
    requires |ws| == |scripts|
    ensures |work| == |ws| && forall i :: 0 <= i < |ws| ==> work[i] == WorkLeft(ws[i], scripts[i])
  {
    if ws == [] then [] else [WorkLeft(ws[0], scripts[0])] + WorkList(ws[1..], scripts[1..])
  }

  function Measure(b: Batch, s: State): nat
    requires |s.workers| == |b.scripts|
  {
    Sum(WorkList(s.workers, b.scripts)) + (if s.main.Returned? then 0 else 1)
  }

  lemma WorkerProgress(b: Batch, s: State, t: State, i: nat)
    requires |s.workers| == |t.workers| == |b.scripts| && i < |s.workers|
    requires t.workers == s.workers[i := t.workers[i]] && s.main.Returned? == t.main.Returned?
    requires WorkLeft(t.workers[i], b.scripts[i]) < WorkLeft(s.workers[i], b.scripts[i])
    ensures Measure(b, t) < Measure(b, s)
  {
    var u := WorkList(s.workers, b.scripts);
    SumUpdate(u, i, WorkLeft(t.workers[i], b.scripts[i]));
    assert WorkList(t.workers, b.scripts) == u[i := WorkLeft(t.workers[i], b.scripts[i])];
  }

  /** Every step uses up some of a finite amount of work, so every schedule ends. */
  lemma StepDecreases(b: Batch, s: State, step: Step)
    requires Shaped(b, s) && Enabled(b, s, step)
    ensures |Apply(b, s, step).workers| == |b.scripts|
    ensures Measure(b, Apply(b, s, step)) < Measure(b, s)
  {
    var t := Apply(b, s, step);
    match step
    case Spawn => WorkerProgress(b, s, t, s.main.next);
    case Act(i) => WorkerProgress(b, s, t, i);
    case Store(i) => WorkerProgress(b, s, t, i);
    case Merge(i) => WorkerProgress(b, s, t, i);
    case Finish(i) => WorkerProgress(b, s, t, i);
    case Panic(i) => WorkerProgress(b, s, t, i);
    case Recover(i) => WorkerProgress(b, s, t, i);
    case Wait =>
  }

  /** No schedule gets stuck before the response is written, panics or not. */
  lemma NeverStuck(b: Batch, s: State)
    requires Inv(b, s) && !s.main.Returned?
    ensures exists step :: Enabled(b, s, step)
  {
    if s.main.next < |b.scripts| {
      assert Enabled(b, s, Spawn);
    } else if exists i :: 0 <= i < |b.scripts| && !s.workers[i].Over? {
      var i :| 0 <= i < |b.scripts| && !s.workers[i].Over?;
      assert WorkerOk(s.workers[i], b.scripts[i], s.shared.responses[i], i in s.merged);
      match s.workers[i]
      case Running(next, _, _) =>
        if next < |b.scripts[i].actions| {
          assert Enabled(b, s, Act(i));
        } else if b.scripts[i].panics {
          assert Enabled(b, s, Panic(i));
        } else {
          assert Enabled(b, s, Store(i));
        }
      case Stored(_) => assert Enabled(b, s, Merge(i));
      case Merged => assert Enabled(b, s, Finish(i));
      case Panicking => assert Enabled(b, s, Recover(i));
      case NotSpawned => assert false;
    } else {
      assert LiveWorkers(s.workers) == {};
      assert Enabled(b, s, Wait);
    }
  }

  /** A run that cannot be extended has returned; its length is bounded from the start. */
  lemma {:induction false} RunsTerminate(b: Batch, s: State, steps: seq<Step>)
    requires Inv(b, s) && Legal(b, s, steps)
    ensures |steps| <= Measure(b, s)
    ensures (forall step :: !Enabled(b, Execute(b, s, steps), step)) ==> Execute(b, s, steps).main.Returned?
    decreases |steps|
  {
    if steps == [] {
      if !s.main.Returned? {
        NeverStuck(b, s);
      }
    } else {
      StepKeepsInv(b, s, steps[0]);
      StepDecreases(b, s, steps[0]);
      RunsTerminate(b, Apply(b, s, steps[0]), steps[1..]);
    }
  }

  // --------------------------------------------------------------- the combined header

  /** Once set, the combined header is never changed; it is the stripped header of the goroutine that
      went through applyHeaders first. */
  lemma HeaderIsFirst(b: Batch, s: State, step: Step)
    requires Inv(b, s) && Enabled(b, s, step)
    ensures var t := Apply(b, s, step);
            && (s.shared.header.Some? ==> t.shared.header == s.shared.header)
            && s.merged <= t.merged
            && (t.shared.header.Some? <==> t.merged != [])
            && (t.shared.header.Some? ==>
                  && t.merged[0] < |b.scripts|
                  && t.shared.header.value == Strip(HeaderOf(b.scripts[t.merged[0]].actions))
                  && CONTENT_LENGTH !in t.shared.header.value && CACHE_STATUS !in t.shared.header.value)
  {
    StepKeepsInv(b, s, step);
    var t := Apply(b, s, step);
    if s.merged != [] {
      assert t.merged[0] == s.merged[0];
    }
  }

  // ------------------------------------------------------------------ the final response

  ghost predicate SomeError(b: Batch) {
    exists i :: 0 <= i < |b.scripts| && !NoErrors(b.scripts[i].actions)
  }

  ghost predicate SomePanic(b: Batch) {
    exists i :: 0 <= i < |b.scripts| && b.scripts[i].panics
  }

  /** What every goroutine has left in the shared state when the batch returns. */
  lemma AtReturn(b: Batch, s: State)
    requires Inv(b, s) && s.main.Returned?
    ensures s.shared.status != OK <==> SomeError(b)
    ensures s.shared.status != OK ==> s.reports != [] && s.shared.status == s.reports[|s.reports| - 1]
    ensures forall i :: 0 <= i < |b.scripts| ==>
      s.shared.responses[i] == if b.scripts[i].panics then None else Some(Written(b.scripts[i].actions))
  {
    forall i | 0 <= i < |b.scripts|
      ensures s.shared.responses[i] == if b.scripts[i].panics then None else Some(Written(b.scripts[i].actions))
      ensures Performed(s.workers[i], b.scripts[i]) == b.scripts[i].actions
    {
      assert WorkerOk(s.workers[i], b.scripts[i], s.shared.responses[i], i in s.merged);
    }
    if SomeError(b) {
      var i :| 0 <= i < |b.scripts| && !NoErrors(b.scripts[i].actions);
      assert !NoErrors(Performed(s.workers[i], b.scripts[i]));
    }
  }

  /** Which of the four endings a batch has depends on the handlers alone, never on the schedule:
      an error status exactly if some handler reported one, a crash exactly if none did and some
      handler panicked, and otherwise the array if all elements are JSON. */
  lemma Endings(b: Batch, s: State)
    requires Inv(b, s) && s.main.Returned?
    ensures s.main.out.StatusOnly? <==> SomeError(b)
    ensures s.main.out.StatusOnly? ==> s.reports != [] && s.main.out.status == s.reports[|s.reports| - 1] != OK
    ensures s.main.out.NilResponse? <==> !SomeError(b) && SomePanic(b)
    ensures s.main.out.Items? <==> !SomeError(b) && !SomePanic(b) && AllJson(b)
    ensures s.main.out.Items? ==> s.main.out.items == Expected(b)
    ensures s.main.out.Items? ==> forall i :: 0 <= i < |b.scripts| ==> IsElement(s.main.out.items[i], b.scripts[i])
  {
    AtReturn(b, s);
    CollateEndings(b, s.shared);
  }

  /** The element is what the handler wrote, byte for byte; null stands for a handler that wrote nothing. */
  predicate IsElement(item: string, script: Script) {
    item == if Written(script.actions) == "" then "null" else Written(script.actions)
  }

  /** What the handlers wrote, in the order of the requests. */
  function Expected(b: Batch): (items: seq<string>)
    ensures |items| == |b.scripts|
    ensures forall i :: 0 <= i < |items| ==> items[i] == Element(Written(b.scripts[i].actions))
  {
    seq(|b.scripts|, i requires 0 <= i < |b.scripts| => Element(Written(b.scripts[i].actions)))
  }

  ghost predicate AllJson(b: Batch) {
    forall i :: 0 <= i < |b.scripts| ==> b.validJson(Expected(b)[i])
  }

  lemma CollateEndings(b: Batch, sh: Shared)
    requires |sh.responses| == |b.scripts|
    requires forall i :: 0 <= i < |b.scripts| ==>
      sh.responses[i] == if b.scripts[i].panics then None else Some(Written(b.scripts[i].actions))
    ensures var out := Collate(b.writer, b.validJson, sh);
            && (out.StatusOnly? <==> sh.status != OK)
            && (out.NilResponse? <==> sh.status == OK && SomePanic(b))
            && (out.Items? <==> sh.status == OK && !SomePanic(b) && AllJson(b))
            && (out.Items? ==> out.items == Expected(b))
  {
    if SomePanic(b) {
      var i :| 0 <= i < |b.scripts| && b.scripts[i].panics;
      assert sh.responses[i].None?;
    } else {
      assert forall i :: 0 <= i < |sh.responses| ==> sh.responses[i].Some?;
      assert Elements(sh.responses) == Expected(b);
    }
  }

  /** The main theorem: under every interleaving of the goroutines, when no handler panics and none
      reports an error, the output is an array with exactly one element for each request, and the
      i-th element is what the handler wrote for request i. */
  lemma BatchOrder(b: Batch, steps: seq<Step>)
    requires Legal(b, Init(b), steps) && Execute(b, Init(b), steps).main.Returned?
    requires !SomeError(b) && !SomePanic(b) && AllJson(b)
    ensures var out := Execute(b, Init(b), steps).main.out;
            && out.Items? && |out.items| == |b.scripts|
            && forall i :: 0 <= i < |b.scripts| ==> IsElement(out.items[i], b.scripts[i])
  {
    InitInv(b);
    RunKeepsInv(b, Init(b), steps);
    Endings(b, Execute(b, Init(b), steps));
  }

  /** A sub-request hit exactly if the first value it last gave the cache status header is HIT. */
  lemma HitMeans(script: Script)
    ensures Hits(script) <==>
            exists k :: SetsLast(script.actions, "X-Kava-Proxy-Cache-Status", k)
                        && script.actions[k].values != [] && script.actions[k].values[0] == "HIT"
  {
    HeaderIsLastSet(script.actions, CACHE_STATUS);
    if CACHE_STATUS in HeaderOf(script.actions) {
      var k :| SetsLast(script.actions, CACHE_STATUS, k);
      forall l | SetsLast(script.actions, CACHE_STATUS, l) ensures l == k {
      }
    }
    assert |HIT| == 3;
  }

  predicate CountedHit(script: Script) { !script.panics && Hits(script) }

  /** The cache status of a batch: HIT iff every sub-request hit, MISS iff none did, PARTIAL otherwise;
      a sub-request that panicked counts as no hit. */
  lemma CacheStatus(b: Batch, s: State)
    requires Inv(b, s) && s.main.Returned? && !s.main.out.NilResponse? && |b.scripts| > 0
    ensures var status := HeaderGet(s.main.out.header, CACHE_STATUS);
            && (status == HIT <==> forall i :: 0 <= i < |b.scripts| ==> CountedHit(b.scripts[i]))
            && (status == MISS <==> forall i :: 0 <= i < |b.scripts| ==> !CountedHit(b.scripts[i]))
            && (status == HIT || status == MISS || status == PARTIAL)
  {
    var hit := HitWorkers(s.workers, b.scripts);
    assert s.main.out.header == HeaderOut(b.writer, s.shared);
    assert HeaderGet(s.main.out.header, CACHE_STATUS) == CacheHitValue(|b.scripts|, |hit|);
    forall i | 0 <= i < |b.scripts| ensures i in hit <==> CountedHit(b.scripts[i]) {
      assert s.workers[i].Over?;
    }
    FullOrEmpty(hit, |b.scripts|);
    assert |HIT| == 3 && |MISS| == 4 && |PARTIAL| == 7;
  }

  /** The value a name has in the header of the response, before the cache status is set: the last of
      the values that the handler first through applyHeaders gave it, or else what the writer had. */
  function CombinedValue(b: Batch, first: Header, name: string): string {
    if name in first && name != CONTENT_LENGTH && first[name] != [] then first[name][|first[name]| - 1]
    else HeaderGet(b.writer, name)
  }

  /** Every other header of the response comes from one sub-request, the first through applyHeaders. */
  lemma FinalHeader(b: Batch, s: State, name: string)
    requires Inv(b, s) && s.main.Returned? && !s.main.out.NilResponse? && name != CACHE_STATUS
    ensures s.merged == [] ==> HeaderGet(s.main.out.header, name) == HeaderGet(b.writer, name)
    ensures s.merged != [] ==>
      && s.merged[0] < |b.scripts|
      && HeaderGet(s.main.out.header, name) == CombinedValue(b, HeaderOf(b.scripts[s.merged[0]].actions), name)
  {
    assert s.main.out.header == HeaderOut(b.writer, s.shared);
    if s.merged != [] {
      OverlayValue(b.writer, Strip(HeaderOf(b.scripts[s.merged[0]].actions)), name);
    }
  }

  lemma OverlayValue(w: Header, h: Header, name: string)
    ensures HeaderGet(Overlay(w, h, h.Keys), name)
            == if name in h && h[name] != [] then h[name][|h[name]| - 1] else HeaderGet(w, name)
  {
  }

  ghost function Below(n: nat): (all: set<int>)
    ensures |all| == n && forall i :: i in all <==> 0 <= i < n
  {
    if n == 0 then {} else Below(n - 1) + {n - 1}
  }

  lemma Subset(a: set<int>, b: set<int>)
    requires a <= b
    ensures |a| <= |b|
    ensures |a| == |b| ==> a == b
  {
    assert b == a + (b - a);
  }

  lemma FullOrEmpty(x: set<int>, n: nat)
    requires forall i :: i in x ==> 0 <= i < n
    ensures |x| == 0 <==> forall i :: 0 <= i < n ==> i !in x
    ensures |x| == n <==> forall i :: 0 <= i < n ==> i in x
  {
    var all := Below(n);
    Subset(x, all);
    if forall i :: 0 <= i < n ==> i !in x {
      assert x == {};
    }
    if forall i :: 0 <= i < n ==> i in x {
      assert x == all;
    }
    if |x| == n {
      forall i | 0 <= i < n ensures i in x {
        assert i in all;
      }
    }
  }
}
