/**
 RequestAndServe as a concurrent protocol (service/batchmdw/batch_processor.go): the main
 goroutine spawns one goroutine for each sub-request and waits on a WaitGroup; the goroutines
 run their handlers and touch the shared state under a mutex, in any interleaving.

 What a handler does in a run is a finite script of writes that ends in a return or a panic.
 The results hold for every choice of scripts and every schedule.
 */
module BatchProtocol {
  import opened Wrappers
  import opened ServiceCache
  import opened BatchProcessor

  /** What a handler does to its response writer. SetHeader stands for Set, Add and Del alike: it
      leaves the header name with some list of values. */
  datatype Action = Write(bytes: string) | SetHeader(name: string, values: seq<string>) | WriteHeader(status: int)

  datatype Script = Script(actions: seq<Action>, panics: bool)

  datatype Batch = Batch(scripts: seq<Script>, writer: Header, validJson: string -> bool)

  // What a handler leaves behind, read off its actions.

  function Written(actions: seq<Action>): string {
    if actions == [] then ""
    else
      var rest := Written(actions[..|actions| - 1]);
      match actions[|actions| - 1]
      case Write(bytes) => rest + bytes
      case _ => rest
  }

  function HeaderOf(actions: seq<Action>): Header {
    if actions == [] then map[]
    else
      var rest := HeaderOf(actions[..|actions| - 1]);
      match actions[|actions| - 1]
      case SetHeader(name, values) => rest[name := values]
      case _ => rest
  }

  /** The bytes written are those of all writes, one after the other. */
  lemma {:induction false} WrittenConcatenates(a: seq<Action>, b: seq<Action>)
    ensures Written(a + b) == Written(a) + Written(b)
  {
    if b == [] {
      assert a + b == a;
    } else {
      var n := |b| - 1;
      WrittenConcatenates(a, b[..n]);
      assert (a + b)[..|a + b| - 1] == a + b[..n] && (a + b)[|a + b| - 1] == b[n];
    }
  }

  lemma WrittenByOne(a: Action)
    ensures Written([a]) == if a.Write? then a.bytes else ""
  {
    assert [a][..0] == [];
  }

  /** The header holds, for every name, the values that its last setting left. */
  lemma {:induction false} HeaderIsLastSet(actions: seq<Action>, name: string)
    ensures name in HeaderOf(actions) <==> exists k :: SetsLast(actions, name, k)
    ensures forall k :: SetsLast(actions, name, k) ==>
      name in HeaderOf(actions) && HeaderOf(actions)[name] == actions[k].values
  {
    if actions != [] {
      var n := |actions| - 1;
      var before := actions[..n];
      HeaderIsLastSet(before, name);
      if Sets(actions[n], name) {
        assert SetsLast(actions, name, n);
      } else {
        forall k ensures SetsLast(actions, name, k) <==> SetsLast(before, name, k) {
          assert 0 <= k < n ==> before[k] == actions[k];
          if SetsLast(before, name, k) {
            assert forall l :: k < l < n ==> actions[l] == before[l];
          }
          if SetsLast(actions, name, k) {
            assert k != n;
          }
        }
        if k :| SetsLast(before, name, k) {
          assert SetsLast(actions, name, k);
        }
      }
    }
  }

  predicate Sets(a: Action, name: string) { a.SetHeader? && a.name == name }

  ghost predicate SetsLast(actions: seq<Action>, name: string, k: int) {
    0 <= k < |actions| && Sets(actions[k], name) && forall l :: k < l < |actions| ==> !Sets(actions[l], name)
  }

  predicate ReportsError(a: Action) { a.WriteHeader? && a.status != OK }

  ghost predicate NoErrors(actions: seq<Action>) {
    forall k :: 0 <= k < |actions| ==> !ReportsError(actions[k])
  }

  predicate Hits(script: Script) { IsCacheHitHeaders(HeaderOf(script.actions)) }

  // ------------------------------------------------------------------- machine

  datatype Worker =
    | NotSpawned
    | Running(next: nat, buf: string, header: Header)   // inside the handler
    | Stored(header: Header)                            // after setResponse
    | Merged                                            // after applyHeaders
    | Panicking                                         // unwinding to the deferred recover
    | Over                                              // Done has been called

  datatype Main = Spawning(next: nat) | Returned(out: Output)

  /** The last two fields record history: the reported statuses in lock order and the goroutines
      in the order in which they passed applyHeaders. */
  datatype State = State(main: Main, wg: int, workers: seq<Worker>, shared: Shared, reports: seq<int>, merged: seq<nat>)

  datatype Step =
    | Spawn
    | Act(i: nat)
    | Store(i: nat)
    | Merge(i: nat)
    | Finish(i: nat)
    | Panic(i: nat)
    | Recover(i: nat)
    | Wait

  function Init(b: Batch): State {
    var n := |b.scripts|;
    State(Spawning(0), 0, seq(n, _ => NotSpawned), NewShared(n), [], [])
  }

  predicate AtEnd(b: Batch, s: State, i: nat) {
    && i < |s.workers| && i < |b.scripts| && i < |s.shared.responses|
    && s.workers[i].Running? && s.workers[i].next == |b.scripts[i].actions|
  }

  predicate Enabled(b: Batch, s: State, step: Step) {
    match step
    case Spawn => s.main.Spawning? && s.main.next < |b.scripts| && s.main.next < |s.workers|
    case Act(i) =>
      && i < |s.workers| && i < |b.scripts|
      && s.workers[i].Running? && s.workers[i].next < |b.scripts[i].actions|
    case Store(i) => AtEnd(b, s, i) && !b.scripts[i].panics
    case Merge(i) => i < |s.workers| && s.workers[i].Stored?
    case Finish(i) => i < |s.workers| && s.workers[i].Merged?
    case Panic(i) => AtEnd(b, s, i) && b.scripts[i].panics
    case Recover(i) => i < |s.workers| && s.workers[i].Panicking?
    case Wait => s.main == Spawning(|b.scripts|) && s.wg == 0
  }

  /** The goroutine after one more action of its handler. */
  function NextWorker(w: Worker, a: Action): Worker
    requires w.Running?
  {
    match a
    case Write(bytes) => Running(w.next + 1, w.buf + bytes, w.header)
    case SetHeader(name, values) => Running(w.next + 1, w.buf, w.header[name := values])
    case WriteHeader(_) => Running(w.next + 1, w.buf, w.header)
  }

  function Perform(s: State, i: nat, a: Action): State
    requires i < |s.workers| && s.workers[i].Running?
  {
    var t := s.(workers := s.workers[i := NextWorker(s.workers[i], a)]);
    if ReportsError(a) then t.(shared := SetErrStatus(s.shared, a.status), reports := s.reports + [a.status])
    else t
  }

  function Apply(b: Batch, s: State, step: Step): State
    requires Enabled(b, s, step)
  {
    match step
    case Spawn =>
      s.(main := Spawning(s.main.next + 1), wg := s.wg + 1,
         workers := s.workers[s.main.next := Running(0, "", map[])])
    case Act(i) => Perform(s, i, b.scripts[i].actions[s.workers[i].next])
    case Store(i) =>
      s.(workers := s.workers[i := Stored(s.workers[i].header)],
         shared := SetResponse(s.shared, i, s.workers[i].buf))
    case Merge(i) =>
      s.(workers := s.workers[i := Merged], shared := ApplyHeaders(s.shared, s.workers[i].header),
         merged := s.merged + [i])
    case Finish(i) => s.(workers := s.workers[i := Over], wg := s.wg - 1)
    case Panic(i) => s.(workers := s.workers[i := Panicking])
    case Recover(i) => s.(workers := s.workers[i := Over], wg := s.wg - 1)
    case Wait => s.(main := Returned(Collate(b.writer, b.validJson, s.shared)))
  }

  predicate Legal(b: Batch, s: State, steps: seq<Step>)
    decreases |steps|
  {
    steps == [] || (Enabled(b, s, steps[0]) && Legal(b, Apply(b, s, steps[0]), steps[1..]))
  }

  function Execute(b: Batch, s: State, steps: seq<Step>): State
    requires Legal(b, s, steps)
    decreases |steps|
  {
    if steps == [] then s else Execute(b, Apply(b, s, steps[0]), steps[1..])
  }

  // ------------------------------------------------------------------- counting

  /** The goroutine is spawned and has not called Done. */
  predicate Active(w: Worker) { !w.NotSpawned? && !w.Over? }

  ghost function LiveWorkers(ws: seq<Worker>): set<int> {
    set i | 0 <= i < |ws| && Active(ws[i])
  }

  /** The goroutine has been through applyHeaders. */
  predicate PastMerge(w: Worker, script: Script) { w.Merged? || (w.Over? && !script.panics) }

  predicate CountsAsHit(w: Worker, script: Script) { PastMerge(w, script) && Hits(script) }

  ghost function HitWorkers(ws: seq<Worker>, scripts: seq<Script>): set<int>
    requires |ws| == |scripts|
  {
    set i | 0 <= i < |ws| && CountsAsHit(ws[i], scripts[i])
  }

  function Bit(b: bool): int { if b then 1 else 0 }

  // ------------------------------------------------------------------ invariant

  /** The actions the goroutine has performed so far. */
  function Performed(w: Worker, script: Script): seq<Action> {
    match w
    case NotSpawned => []
    case Running(next, _, _) => if next <= |script.actions| then script.actions[..next] else script.actions
    case _ => script.actions
  }

  /** One goroutine, its slot of the responses and its place in the merge order. */
  predicate WorkerOk(w: Worker, script: Script, response: Option<string>, isMerged: bool) {
    match w
    case NotSpawned => response.None? && !isMerged
    case Running(next, buf, header) =>
      && next <= |script.actions| && response.None? && !isMerged
      && buf == Written(script.actions[..next]) && header == HeaderOf(script.actions[..next])
    case Stored(header) =>
      && !script.panics && header == HeaderOf(script.actions)
      && response == Some(Written(script.actions)) && !isMerged
    case Merged => !script.panics && response == Some(Written(script.actions)) && isMerged
    case Panicking => script.panics && response.None? && !isMerged
    case Over =>
      if script.panics then response.None? && !isMerged
      else response == Some(Written(script.actions)) && isMerged
  }

  ghost predicate WorkersOk(b: Batch, s: State)
    requires |s.workers| == |s.shared.responses| == |b.scripts|
  {
    forall i :: 0 <= i < |b.scripts| ==>
      WorkerOk(s.workers[i], b.scripts[i], s.shared.responses[i], i in s.merged)
  }

  ghost predicate CountsOk(b: Batch, s: State)
    requires |s.workers| == |b.scripts|
  {
    && s.wg == |LiveWorkers(s.workers)|
    && s.shared.cacheHits == |HitWorkers(s.workers, b.scripts)|
  }

  /** The header kept is the stripped header of the first goroutine through applyHeaders. */
  ghost predicate HeaderOk(b: Batch, s: State) {
    && (forall k :: 0 <= k < |s.merged| ==> s.merged[k] < |b.scripts|)
    && s.shared.header ==
         if s.merged == [] || s.merged[0] >= |b.scripts| then None
         else Some(Strip(HeaderOf(b.scripts[s.merged[0]].actions)))
  }

  /** The status is the last one reported, and something was reported exactly if some goroutine has
      written a header other than 200. */
  ghost predicate StatusOk(b: Batch, s: State)
    requires |s.workers| == |b.scripts|
  {
    && s.shared.status == (if s.reports == [] then OK else s.reports[|s.reports| - 1])
    && (forall k :: 0 <= k < |s.reports| ==> s.reports[k] != OK)
    && (s.reports == [] <==>
          forall i :: 0 <= i < |b.scripts| ==> NoErrors(Performed(s.workers[i], b.scripts[i])))
  }

  ghost predicate MainOk(b: Batch, s: State)
    requires |s.workers| == |b.scripts|
  {
    match s.main
    case Spawning(k) =>
      k <= |b.scripts| && forall i :: 0 <= i < |b.scripts| ==> (s.workers[i].NotSpawned? <==> i >= k)
    case Returned(out) =>
      && (forall i :: 0 <= i < |b.scripts| ==> s.workers[i].Over?)
      && out == Collate(b.writer, b.validJson, s.shared)
  }

  ghost predicate Inv(b: Batch, s: State) {
    && |s.workers| == |s.shared.responses| == |b.scripts|
    && WorkersOk(b, s) && CountsOk(b, s) && HeaderOk(b, s) && StatusOk(b, s) && MainOk(b, s)
  }

  lemma InitInv(b: Batch)
    ensures Inv(b, Init(b))
  {
    assert LiveWorkers(Init(b).workers) == {};
    assert HitWorkers(Init(b).workers, b.scripts) == {};
  }

  /** Replacing one goroutine changes both counts by that goroutine alone. */
  lemma CountUpdate(b: Batch, s: State, t: State, i: nat)
    requires |s.workers| == |b.scripts| && i < |s.workers| && |t.workers| == |s.workers|
    requires t.workers == s.workers[i := t.workers[i]]
    requires CountsOk(b, s)
    requires t.wg == s.wg + Bit(Active(t.workers[i])) - Bit(Active(s.workers[i]))
    requires t.shared.cacheHits
             == s.shared.cacheHits + Bit(CountsAsHit(t.workers[i], b.scripts[i])) - Bit(CountsAsHit(s.workers[i], b.scripts[i]))
    ensures CountsOk(b, t)
  {
    OneMember(LiveWorkers(s.workers), LiveWorkers(t.workers), i);
    OneMember(HitWorkers(s.workers, b.scripts), HitWorkers(t.workers, b.scripts), i);
  }

  /** Sets that differ in one member at most differ in size by that member. */
  lemma OneMember(x: set<int>, y: set<int>, i: int)
    requires forall j :: j != i ==> (j in x <==> j in y)
    ensures |y| == |x| + Bit(i in y) - Bit(i in x)
  {
    assert forall j :: j in x - {i} <==> j in y - {i};
    assert x - {i} == y - {i};
    assert |x - {i}| == |x| - Bit(i in x);
    assert |y - {i}| == |y| - Bit(i in y);
  }

  /** A step of one goroutine that performs no action leaves the status account alone. */
  lemma StatusUnchanged(b: Batch, s: State, t: State, i: nat)
    requires |s.workers| == |b.scripts| && i < |s.workers| && StatusOk(b, s)
    requires |t.workers| == |s.workers| && t.workers == s.workers[i := t.workers[i]]
    requires t.reports == s.reports && t.shared.status == s.shared.status
    requires NoErrors(Performed(t.workers[i], b.scripts[i])) <==> NoErrors(Performed(s.workers[i], b.scripts[i]))
    ensures StatusOk(b, t)
  {
    assert forall j :: 0 <= j < |b.scripts| && j != i ==>
      Performed(t.workers[j], b.scripts[j]) == Performed(s.workers[j], b.scripts[j]);
    if s.reports == [] {
      forall j | 0 <= j < |b.scripts| ensures NoErrors(Performed(t.workers[j], b.scripts[j])) {
        assert NoErrors(Performed(s.workers[j], b.scripts[j]));
      }
    } else {
      var j :| 0 <= j < |b.scripts| && !NoErrors(Performed(s.workers[j], b.scripts[j]));
      assert !NoErrors(Performed(t.workers[j], b.scripts[j]));
    }
  }

  /** A step that touches one goroutine, its slot and its place in the merge order, and nothing of
      the other goroutines, keeps the invariant if that goroutine is fine after it. */
  lemma OneWorkerStep(b: Batch, s: State, t: State, i: nat)
    requires Inv(b, s) && i < |b.scripts| && |t.workers| == |t.shared.responses| == |b.scripts|
    requires forall j :: 0 <= j < |b.scripts| && j != i ==>
      t.workers[j] == s.workers[j] && t.shared.responses[j] == s.shared.responses[j]
    requires forall j :: j != i ==> (j in t.merged <==> j in s.merged)
    requires WorkerOk(t.workers[i], b.scripts[i], t.shared.responses[i], i in t.merged)
    requires CountsOk(b, t) && HeaderOk(b, t) && StatusOk(b, t)
    requires t.main == s.main && !t.workers[i].NotSpawned? && !s.workers[i].NotSpawned? && !s.workers[i].Over?
    ensures Inv(b, t)
  {
    forall j | 0 <= j < |b.scripts|
      ensures WorkerOk(t.workers[j], b.scripts[j], t.shared.responses[j], j in t.merged)
    {
      assert WorkerOk(s.workers[j], b.scripts[j], s.shared.responses[j], j in s.merged);
    }
    assert s.main.Spawning?;
  }

  lemma SpawnWorkers(b: Batch, s: State)
    requires Inv(b, s) && Enabled(b, s, Spawn)
    ensures WorkersOk(b, Apply(b, s, Spawn)) && MainOk(b, Apply(b, s, Spawn))
  {
    var t, i := Apply(b, s, Spawn), s.main.next;
    assert b.scripts[i].actions[..0] == [];
    forall j | 0 <= j < |b.scripts|
      ensures WorkerOk(t.workers[j], b.scripts[j], t.shared.responses[j], j in t.merged)
    {
      assert WorkerOk(s.workers[j], b.scripts[j], s.shared.responses[j], j in s.merged);
    }
  }

  lemma SpawnKeepsInv(b: Batch, s: State)
    requires Inv(b, s) && Enabled(b, s, Spawn)
    ensures Inv(b, Apply(b, s, Spawn))
  {
    var t, i := Apply(b, s, Spawn), s.main.next;
    SpawnWorkers(b, s);
    CountUpdate(b, s, t, i);
    assert Performed(t.workers[i], b.scripts[i]) == [] == Performed(s.workers[i], b.scripts[i]);
    StatusUnchanged(b, s, t, i);
  }

  lemma NextWorkerOk(w: Worker, script: Script)
    requires w.Running? && w.next < |script.actions| && WorkerOk(w, script, None, false)
    ensures WorkerOk(NextWorker(w, script.actions[w.next]), script, None, false)
  {
    var before, after := script.actions[..w.next], script.actions[..w.next + 1];
    assert after[..|after| - 1] == before && after[|after| - 1] == script.actions[w.next];
  }

  lemma ActStatus(b: Batch, s: State, i: nat)
    requires Inv(b, s) && Enabled(b, s, Act(i))
    ensures StatusOk(b, Apply(b, s, Act(i)))
  {
    var t := Apply(b, s, Act(i));
    var script := b.scripts[i];
    var next := s.workers[i].next;
    var before, after, a := script.actions[..next], script.actions[..next + 1], script.actions[next];
    assert WorkerOk(s.workers[i], script, s.shared.responses[i], i in s.merged);
    assert Performed(s.workers[i], script) == before && Performed(t.workers[i], script) == after;
    assert after == before + [a];
    if ReportsError(a) {
      assert ReportsError(after[next]);
      assert !NoErrors(Performed(t.workers[i], script));
    } else {
      assert forall k :: 0 <= k < |before| ==> after[k] == before[k];
      assert NoErrors(after) <==> NoErrors(before);
      StatusUnchanged(b, s, t, i);
    }
  }

  /** A goroutine that stays inside its handler touches nothing but its own writer and the status. */
  lemma InsideHandler(b: Batch, s: State, t: State, i: nat)
    requires Inv(b, s) && i < |b.scripts| && s.workers[i].Running? && |t.workers| == |b.scripts|
    requires t.workers == s.workers[i := t.workers[i]] && t.workers[i].Running?
    requires WorkerOk(t.workers[i], b.scripts[i], None, false) && StatusOk(b, t)
    requires t.main == s.main && t.wg == s.wg && t.merged == s.merged
    requires t.shared == s.shared.(status := t.shared.status)
    ensures Inv(b, t)
  {
    assert WorkerOk(s.workers[i], b.scripts[i], s.shared.responses[i], i in s.merged);
    CountUpdate(b, s, t, i);
    OneWorkerStep(b, s, t, i);
  }

  lemma ActKeepsInv(b: Batch, s: State, i: nat)
    requires Inv(b, s) && Enabled(b, s, Act(i))
    ensures Inv(b, Apply(b, s, Act(i)))
  {
    assert WorkerOk(s.workers[i], b.scripts[i], s.shared.responses[i], i in s.merged);
    NextWorkerOk(s.workers[i], b.scripts[i]);
    ActStatus(b, s, i);
    InsideHandler(b, s, Apply(b, s, Act(i)), i);
  }

  lemma StoreKeepsInv(b: Batch, s: State, i: nat)
    requires Inv(b, s) && Enabled(b, s, Store(i))
    ensures Inv(b, Apply(b, s, Store(i)))
  {
    var t := Apply(b, s, Store(i));
    assert WorkerOk(s.workers[i], b.scripts[i], s.shared.responses[i], i in s.merged);
    assert b.scripts[i].actions[..|b.scripts[i].actions|] == b.scripts[i].actions;
    CountUpdate(b, s, t, i);
    StatusUnchanged(b, s, t, i);
    OneWorkerStep(b, s, t, i);
  }

  lemma MergeHeader(b: Batch, s: State, i: nat)
    requires Inv(b, s) && Enabled(b, s, Merge(i))
    ensures HeaderOk(b, Apply(b, s, Merge(i)))
    ensures CountsAsHit(Merged, b.scripts[i]) <==> IsCacheHitHeaders(s.workers[i].header)
  {
    var t := Apply(b, s, Merge(i));
    assert WorkerOk(s.workers[i], b.scripts[i], s.shared.responses[i], i in s.merged);
    assert s.merged != [] ==> t.merged[0] == s.merged[0];
  }

  lemma AppendMember(order: seq<nat>, i: nat)
    ensures i in order + [i]
    ensures forall j :: j != i ==> (j in order + [i] <==> j in order)
  {
  }

  lemma MergeAccounts(b: Batch, s: State, i: nat)
    requires Inv(b, s) && Enabled(b, s, Merge(i))
    ensures CountsOk(b, Apply(b, s, Merge(i))) && StatusOk(b, Apply(b, s, Merge(i)))
  {
    var t := Apply(b, s, Merge(i));
    MergeHeader(b, s, i);
    assert Performed(t.workers[i], b.scripts[i]) == Performed(s.workers[i], b.scripts[i]);
    CountUpdate(b, s, t, i);
    StatusUnchanged(b, s, t, i);
  }

  lemma MergeKeepsInv(b: Batch, s: State, i: nat)
    requires Inv(b, s) && Enabled(b, s, Merge(i))
    ensures Inv(b, Apply(b, s, Merge(i)))
  {
    var t := Apply(b, s, Merge(i));
    assert WorkerOk(s.workers[i], b.scripts[i], s.shared.responses[i], i in s.merged);
    AppendMember(s.merged, i);
    MergeHeader(b, s, i);
    MergeAccounts(b, s, i);
    OneWorkerStep(b, s, t, i);
  }

  lemma LeaveKeepsInv(b: Batch, s: State, step: Step, i: nat)
    requires Inv(b, s) && Enabled(b, s, step)
    requires step == Finish(i) || step == Panic(i) || step == Recover(i)
    ensures Inv(b, Apply(b, s, step))
  {
    var t := Apply(b, s, step);
    assert WorkerOk(s.workers[i], b.scripts[i], s.shared.responses[i], i in s.merged);
    assert b.scripts[i].actions[..|b.scripts[i].actions|] == b.scripts[i].actions;
    assert Performed(t.workers[i], b.scripts[i]) == b.scripts[i].actions == Performed(s.workers[i], b.scripts[i]);
    CountUpdate(b, s, t, i);
    StatusUnchanged(b, s, t, i);
    OneWorkerStep(b, s, t, i);
  }

  /** Wait is released only when every goroutine is over. */
  lemma WaitKeepsInv(b: Batch, s: State)
    requires Inv(b, s) && Enabled(b, s, Wait)
    ensures Inv(b, Apply(b, s, Wait))
  {
    forall i | 0 <= i < |b.scripts| ensures s.workers[i].Over? {
      assert i !in LiveWorkers(s.workers);
    }
  }

  lemma StepKeepsInv(b: Batch, s: State, step: Step)
    requires Inv(b, s) && Enabled(b, s, step)
    ensures Inv(b, Apply(b, s, step))
  {
    match step
    case Spawn => SpawnKeepsInv(b, s);
    case Act(i) => ActKeepsInv(b, s, i);
    case Store(i) => StoreKeepsInv(b, s, i);
    case Merge(i) => MergeKeepsInv(b, s, i);
    case Finish(i) => LeaveKeepsInv(b, s, step, i);
    case Panic(i) => LeaveKeepsInv(b, s, step, i);
    case Recover(i) => LeaveKeepsInv(b, s, step, i);
    case Wait => WaitKeepsInv(b, s);
  }

  lemma {:induction false} RunKeepsInv(b: Batch, s: State, steps: seq<Step>)
    requires Inv(b, s) && Legal(b, s, steps)
    ensures Inv(b, Execute(b, s, steps))
    decreases |steps|
  {
    if steps != [] {
      StepKeepsInv(b, s, steps[0]);
      RunKeepsInv(b, Apply(b, s, steps[0]), steps[1..]);
    }
  }
}
