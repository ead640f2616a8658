/**
 The service with a cache refines the service without one. The specification is a proxy
 that keeps no store: a pending request is answered by the backend in one step.
 */
module CacheRefinement {
  import opened Wrappers
  import opened Decode
  import opened ServiceCache
  import opened CachePipeline
  import opened CacheTransparency

  datatype Pending = Pending(host: string, incoming: Incoming)

  datatype Answered = Answered(id: nat, host: string, incoming: Incoming, time: int, outcome: Outcome)

  /** State of the proxy without a cache. */
  datatype Proxy = Proxy(now: int, seen: set<nat>, pending: map<nat, Pending>, log: seq<Answered>)

  function ProxyInit(now: int): Proxy { Proxy(now, {}, map[], []) }

  function DirectOutcome(sys: System, p: Pending, now: int): Outcome {
    if p.host in sys.hosts then Body(sys.backend(p.host, p.incoming, now).reply) else BadGateway
  }

  ghost predicate ProxyTick(a: Proxy, b: Proxy) { a.now <= b.now && b == a.(now := b.now) }

  ghost predicate ProxyArrive(a: Proxy, b: Proxy, id: nat, p: Pending) {
    id !in a.seen && b == a.(seen := a.seen + {id}, pending := a.pending[id := p])
  }

  ghost predicate ProxyAnswer(sys: System, a: Proxy, b: Proxy, id: nat) {
    && id in a.pending
    && var p := a.pending[id];
       b == a.(pending := a.pending - {id},
               log := a.log + [Answered(id, p.host, p.incoming, a.now, DirectOutcome(sys, p, a.now))])
  }

  ghost predicate ProxyAbort(a: Proxy, b: Proxy, id: nat) {
    id in a.pending && ShortParams(a.pending[id].incoming) && b == a.(pending := a.pending - {id})
  }

  /** One step of the proxy without a cache, or none. */
  ghost predicate ProxyNext(sys: System, a: Proxy, b: Proxy) {
    || a == b
    || ProxyTick(a, b)
    || (exists id: nat, p: Pending :: ProxyArrive(a, b, id, p))
    || (exists id: nat :: ProxyAnswer(sys, a, b, id))
    || (exists id: nat :: ProxyAbort(a, b, id))
  }

  /** What a client of the service can see of its state. */
  predicate Waiting(f: Flight) { f.phase.Arrived? || f.phase.Missed? || f.phase.Found? }

  function Seen(rec: Record): Answered {
    Answered(rec.id, rec.host, rec.incoming, rec.time, rec.outcome)
  }

  function View(s: State): Proxy {
    Proxy(s.now, s.flights.Keys,
          map id | id in s.flights && Waiting(s.flights[id]) :: Pending(s.flights[id].host, s.flights[id].incoming),
          seq(|s.log|, i requires 0 <= i < |s.log| => Seen(s.log[i])))
  }

  /** The backend echoes id and version (section 5 of the JSON-RPC 2.0 Specification). */
  ghost predicate Echoes(sys: System) {
    forall h: string, r: Request, t: int ::
      h in sys.hosts && sys.asked(r) && AnswerOf(sys, h, r, t).Rpc? ==>
        AnswerOf(sys, h, r, t).version == r.version && AnswerOf(sys, h, r, t).id == Some(r.id)
  }

  /** A served request got exactly the direct outcome, id and version included. */
  lemma ServedOutcome(sys: System, s: State, id: nat)
    requires Inv(sys, s) && Stable(sys) && Echoes(sys) && Enabled(sys, s, Serve(id))
    ensures var f := s.flights[id];
            var t := DoServe(sys, s, id);
            && |t.log| == |s.log| + 1 && t.log[..|s.log|] == s.log
            && Seen(t.log[|s.log|])
               == Answered(id, f.host, f.incoming, s.now, DirectOutcome(sys, Pending(f.host, f.incoming), s.now))
  {
    var f := s.flights[id];
    assert FlightExplained(sys, f, s.now);
    if f.host in sys.hosts && f.phase.Found? {
      FoundAnswerIsCurrent(sys, f.host, f.incoming.req, f.phase.answer.reply, s.now);
      assert f.phase.answer.reply == AnswerOf(sys, f.host, f.incoming.req, s.now);
    }
  }

  /** Answering a request adds a line to the log and takes the request off the waiting list. */
  lemma ViewOfAnswer(s: State, t: State, id: nat, phase: Phase, rec: Record)
    requires id in s.flights && Waiting(s.flights[id]) && !Waiting(Flight("", s.flights[id].incoming, phase))
    requires t == s.(flights := SetPhase(s, id, phase), log := s.log + [rec])
    ensures View(t) == View(s).(pending := View(s).pending - {id}, log := View(s).log + [Seen(rec)])
  {
    assert t.flights.Keys == s.flights.Keys;
    assert View(t).pending == View(s).pending - {id};
    assert View(t).log == View(s).log + [Seen(rec)];
  }

  lemma ServeRefines(sys: System, s: State, id: nat)
    requires Inv(sys, s) && Stable(sys) && Echoes(sys) && Enabled(sys, s, Serve(id))
    ensures ProxyAnswer(sys, View(s), View(DoServe(sys, s, id)), id)
  {
    var t := DoServe(sys, s, id);
    ServedOutcome(sys, s, id);
    var rec := t.log[|s.log|];
    assert t.log == s.log + [rec];
    ViewOfAnswer(s, t, id, t.flights[id].phase, rec);
  }

  /** Moving a request on without answering it is invisible. */
  lemma InternalStepIsInvisible(s: State, t: State, id: nat, phase: Phase)
    requires id in s.flights && t.now == s.now && t.log == s.log && t.flights == SetPhase(s, id, phase)
    requires Waiting(s.flights[id]) == Waiting(t.flights[id])
    ensures View(t) == View(s)
  {
    assert t.flights.Keys == s.flights.Keys;
    assert View(t).pending == View(s).pending;
  }

  lemma LookupIsInvisible(sys: System, s: State, id: nat)
    requires Enabled(sys, s, Lookup(id))
    ensures View(DoLookup(sys, s, id)) == View(s)
  {
    var t := DoLookup(sys, s, id);
    InternalStepIsInvisible(s, t, id, t.flights[id].phase);
  }

  lemma OfferIsInvisible(sys: System, s: State, id: nat)
    requires Enabled(sys, s, Offer(id))
    ensures View(DoOffer(sys, s, id)) == View(s)
  {
    InternalStepIsInvisible(s, DoOffer(sys, s, id), id, Finished);
  }

  /** The steps that clients cannot tell apart from standing still, waiting, asking or giving up. */
  lemma OtherStepRefines(sys: System, s: State, step: Step)
    requires Enabled(sys, s, step) && !step.Serve?
    ensures ProxyNext(sys, View(s), View(Apply(sys, s, step)))
  {
    var t := Apply(sys, s, step);
    match step
    case Tick(_) => assert ProxyTick(View(s), View(t));
    case Arrive(id, host, incoming) =>
      assert View(t).pending == View(s).pending[id := Pending(host, incoming)];
      assert ProxyArrive(View(s), View(t), id, Pending(host, incoming));
    case Lookup(id) => LookupIsInvisible(sys, s, id);
    case LookupFails(id) => InternalStepIsInvisible(s, t, id, Missed);
    case Abort(id) =>
      assert View(t).pending == View(s).pending - {id};
      assert ProxyAbort(View(s), View(t), id);
    case Offer(id) => OfferIsInvisible(sys, s, id);
    case OfferFails(id) => InternalStepIsInvisible(s, t, id, Finished);
    case Evict(_) => assert View(t) == View(s);
  }

  /** Forward simulation: every step of the caching service is a step of the proxy without a cache. */
  lemma StepRefines(sys: System, s: State, step: Step)
    requires Inv(sys, s) && Stable(sys) && Echoes(sys) && Enabled(sys, s, step)
    ensures ProxyNext(sys, View(s), View(Apply(sys, s, step)))
  {
    if step.Serve? {
      ServeRefines(sys, s, step.id);
    } else {
      OtherStepRefines(sys, s, step);
    }
  }

  /** A behaviour of the proxy without a cache, from one state to another. */
  ghost predicate Behaviour(sys: System, states: seq<Proxy>) {
    |states| >= 1 && forall i :: 0 <= i < |states| - 1 ==> ProxyNext(sys, states[i], states[i + 1])
  }

  ghost function Views(sys: System, s: State, steps: seq<Step>): (states: seq<Proxy>)
    requires Legal(sys, s, steps)
    ensures |states| == |steps| + 1 && states[0] == View(s)
    decreases |steps|
  {
    if steps == [] then [View(s)]
    else [View(s)] + Views(sys, Apply(sys, s, steps[0]), steps[1..])
  }

  lemma {:induction false} RunRefines(sys: System, s: State, steps: seq<Step>)
    requires Inv(sys, s) && Stable(sys) && Echoes(sys) && Legal(sys, s, steps)
    ensures Behaviour(sys, Views(sys, s, steps))
    ensures Views(sys, s, steps)[|steps|] == View(Execute(sys, s, steps))
    decreases |steps|
  {
    if steps != [] {
      var t := Apply(sys, s, steps[0]);
      StepRefines(sys, s, steps[0]);
      StepKeepsInv(sys, s, steps[0]);
      RunRefines(sys, t, steps[1..]);
      var all, rest := Views(sys, s, steps), Views(sys, t, steps[1..]);
      forall i | 0 <= i < |all| - 1 ensures ProxyNext(sys, all[i], all[i + 1]) {
        if i > 0 {
          assert all[i] == rest[i - 1] && all[i + 1] == rest[i];
        }
      }
    }
  }

  lemma InitialView(sys: System, now: int)
    ensures View(Init(now)) == ProxyInit(now) && Inv(sys, Init(now))
  {
  }

  /** Some behaviour of the proxy without a cache leads from one state to the other. */
  ghost predicate Reaches(sys: System, a: Proxy, b: Proxy) {
    exists states: seq<Proxy> :: Behaviour(sys, states) && states[0] == a && states[|states| - 1] == b
  }

  /** Every interleaved run of the caching service is, to its clients, a run of the proxy
      without a cache: same requests, same answer times, same bodies. */
  lemma CacheRefinesProxy(sys: System, now: int, steps: seq<Step>)
    requires Stable(sys) && Echoes(sys) && Legal(sys, Init(now), steps)
    ensures Reaches(sys, ProxyInit(now), View(Execute(sys, Init(now), steps)))
  {
    var s := Init(now);
    InitialView(sys, now);
    RunReaches(sys, s, steps);
  }

  lemma RunReaches(sys: System, s: State, steps: seq<Step>)
    requires Inv(sys, s) && Stable(sys) && Echoes(sys) && Legal(sys, s, steps)
    ensures Reaches(sys, View(s), View(Execute(sys, s, steps)))
  {
    RunRefines(sys, s, steps);
    var states := Views(sys, s, steps);
    assert states[|states| - 1] == View(Execute(sys, s, steps));
  }
}
