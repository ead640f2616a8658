/**
 Every request passes three middlewares: look up the cache, serve or forward, store
 (service/cachemdw/is_cached_middleware.go, service/middleware.go,
 service/cachemdw/caching_middleware.go). Any number of requests are in flight over one
 store; between two middlewares of one request anything may happen to the others.
 The system is a transition system over such interleavings.
 */
module CachePipeline {
  import opened Wrappers
  import opened Decode
  import opened CacheKeys
  import opened CacheStore
  import opened ServiceCache

  /** A request as it enters the pipeline: decoded, or passed through unread. */
  datatype Incoming = Decoded(req: Request) | Undecoded(body: string)

  datatype Response = Response(reply: Reply, headers: Header)

  /** What the backend answers to a request for a host at an instant, whatever routing
      picks to serve it. */
  type Backend = (string, Incoming, int) -> Response

  /** The service, its backend, and the decoded requests that clients may send. */
  datatype System = System(cfg: Config, hosts: set<string>, backend: Backend, asked: Request -> bool)

  predicate MayArrive(sys: System, incoming: Incoming) { incoming.Decoded? ==> sys.asked(incoming.req) }

  function KeyOf(sys: System, r: Request): string { Key(sys.cfg.hashing, sys.cfg.prefix, r) }

  /** The request is one that clients send and that the cache serves. */
  predicate Served(sys: System, r: Request) {
    sys.asked(r) && ParamsLongEnough(r) && IsCacheable(sys.cfg.readInt, Some(r))
  }

  datatype Phase =
    | Arrived                                   // before the cache lookup
    | Missed                                    // marked as uncached
    | Found(answer: CachedAnswer)               // marked as cached, reply in the context
    | Forwarded(response: Response, at: int)    // served by the backend, not yet offered to the cache
    | Finished
    | Aborted                                   // the handler panicked

  datatype Flight = Flight(host: string, incoming: Incoming, phase: Phase)

  datatype Outcome = BadGateway | Body(reply: Reply)

  /** One response written to a client. */
  datatype Record = Record(id: nat, host: string, incoming: Incoming, time: int, outcome: Outcome, fromCache: bool)

  datatype State = State(store: Store<QueryResponse>, now: int, flights: map<nat, Flight>, log: seq<Record>)

  datatype Step =
    | Tick(now: int)                                    // the clock moves on
    | Arrive(id: nat, host: string, incoming: Incoming)
    | Lookup(id: nat)
    | LookupFails(id: nat)                              // the cache client reports an error
    | Abort(id: nat)                                    // params too short: index out of range
    | Serve(id: nat)
    | Offer(id: nat)                                    // the caching middleware
    | OfferFails(id: nat)
    | Evict(key: string)                                // an operator or the store drops a key

  function Init(now: int): State { State(map[], now, map[], []) }

  predicate In(s: State, id: nat, phase: Phase) { id in s.flights && s.flights[id].phase == phase }

  predicate ShortParams(incoming: Incoming) { incoming.Decoded? && !ParamsLongEnough(incoming.req) }

  predicate Enabled(sys: System, s: State, step: Step) {
    match step
    case Tick(t) => s.now <= t
    case Arrive(id, _, incoming) => id !in s.flights && MayArrive(sys, incoming)
    case Lookup(id) => In(s, id, Arrived) && !(sys.cfg.enabled && ShortParams(s.flights[id].incoming))
    case LookupFails(id) => In(s, id, Arrived) && !(sys.cfg.enabled && ShortParams(s.flights[id].incoming))
    case Abort(id) => In(s, id, Arrived) && ShortParams(s.flights[id].incoming)
    case Serve(id) => id in s.flights && (s.flights[id].phase.Missed? || s.flights[id].phase.Found?)
    case Offer(id) => id in s.flights && s.flights[id].phase.Forwarded?
    case OfferFails(id) => id in s.flights && s.flights[id].phase.Forwarded?
    case Evict(_) => true
  }

  function SetPhase(s: State, id: nat, phase: Phase): map<nat, Flight>
    requires id in s.flights
  {
    s.flights[id := s.flights[id].(phase := phase)]
  }

  /** IsCachedMiddleware. */
  function DoLookup(sys: System, s: State, id: nat): State
    requires Enabled(sys, s, Lookup(id))
  {
    var incoming := s.flights[id].incoming;
    if !sys.cfg.enabled || incoming.Undecoded? then s.(flights := SetPhase(s, id, Missed))
    else
      var answer := LookupAnswer(sys.cfg, s.store, incoming.req, s.now);
      var phase := match answer case Ok(a) => Found(a) case Err(_) => Missed;
      s.(store := AfterLookup(sys.cfg, s.store, incoming.req, s.now), flights := SetPhase(s, id, phase))
  }

  /** The hit-or-miss choice of createProxyRequestMiddleware, behind the routing decision. */
  function DoServe(sys: System, s: State, id: nat): State
    requires Enabled(sys, s, Serve(id))
  {
    var f := s.flights[id];
    if f.host !in sys.hosts then
      s.(flights := SetPhase(s, id, Finished),
         log := s.log + [Record(id, f.host, f.incoming, s.now, BadGateway, false)])
    else if f.phase.Found? then
      s.(flights := SetPhase(s, id, Finished),
         log := s.log + [Record(id, f.host, f.incoming, s.now, Body(f.phase.answer.reply), true)])
    else
      var response := sys.backend(f.host, f.incoming, s.now);
      s.(flights := SetPhase(s, id, Forwarded(response, s.now)),
         log := s.log + [Record(id, f.host, f.incoming, s.now, Body(response.reply), false)])
  }

  /** CachingMiddleware. */
  function DoOffer(sys: System, s: State, id: nat): State
    requires Enabled(sys, s, Offer(id))
  {
    var f := s.flights[id];
    var store :=
      if sys.cfg.enabled && f.incoming.Decoded? && ParamsLongEnough(f.incoming.req) then
        AfterStore(sys.cfg, s.store, f.incoming.req, f.phase.response.reply,
                   HeadersToCache(f.phase.response.headers, sys.cfg.whitelist), s.now)
      else s.store;
    s.(store := store, flights := SetPhase(s, id, Finished))
  }

  function Apply(sys: System, s: State, step: Step): State
    requires Enabled(sys, s, step)
  {
    match step
    case Tick(t) => s.(now := t)
    case Arrive(id, host, incoming) => s.(flights := s.flights[id := Flight(host, incoming, Arrived)])
    case Lookup(id) => DoLookup(sys, s, id)
    case LookupFails(id) => s.(flights := SetPhase(s, id, Missed))
    case Abort(id) => s.(flights := SetPhase(s, id, Aborted))
    case Serve(id) => DoServe(sys, s, id)
    case Offer(id) => DoOffer(sys, s, id)
    case OfferFails(id) => s.(flights := SetPhase(s, id, Finished))
    case Evict(key) => s.(store := s.store - {key})
  }

  predicate Legal(sys: System, s: State, steps: seq<Step>)
    decreases |steps|
  {
    steps == [] || (Enabled(sys, s, steps[0]) && Legal(sys, Apply(sys, s, steps[0]), steps[1..]))
  }

  function Execute(sys: System, s: State, steps: seq<Step>): State
    requires Legal(sys, s, steps)
    decreases |steps|
  {
    if steps == [] then s else Execute(sys, Apply(sys, s, steps[0]), steps[1..])
  }

  // ------------------------------------------------------------------ invariant

  /** Under this key sits the accepted reply of the backend to a cacheable request. */
  ghost predicate WrittenFor(sys: System, key: string, item: Item<QueryResponse>, now: int,
                             host: string, r: Request, fetched: int, stored: int) {
    && host in sys.hosts && fetched <= stored <= now
    && Served(sys, r) && key == KeyOf(sys, r)
    && var response := sys.backend(host, Decoded(r), fetched);
       && Accepted(r.name, response.reply)
       && item.data == QueryResponse(response.reply.result.value, HeadersToCache(response.headers, sys.cfg.whitelist))
       && GetTtl(sys.cfg.ttls, r.name).Ok?
       && item.expiration == Expiry(stored, GetTtl(sys.cfg.ttls, r.name).value)
  }

  ghost predicate EntryExplained(sys: System, key: string, item: Item<QueryResponse>, now: int) {
    exists host: string, r: Request, fetched: int, stored: int ::
      WrittenFor(sys, key, item, now, host, r, fetched, stored)
  }

  ghost predicate StoreExplained(sys: System, s: State) {
    forall key :: key in s.store ==> EntryExplained(sys, key, s.store[key], s.now)
  }

  /** A reply found in the cache carries the requester's id and version, and a result that the
      backend gave before to a request with the same key. */
  ghost predicate AnswerFrom(sys: System, r: Request, reply: Reply, now: int, host: string, asked: Request, fetched: int) {
    && host in sys.hosts && fetched <= now
    && Served(sys, r) && Served(sys, asked) && KeyOf(sys, asked) == KeyOf(sys, r)
    && var given := sys.backend(host, Decoded(asked), fetched).reply;
       Accepted(asked.name, given) && reply == Rebuilt(r, given.result.value)
  }

  ghost predicate AnswerExplained(sys: System, r: Request, reply: Reply, now: int) {
    exists host: string, asked: Request, fetched: int :: AnswerFrom(sys, r, reply, now, host, asked, fetched)
  }

  ghost predicate FlightExplained(sys: System, f: Flight, now: int) {
    MayArrive(sys, f.incoming) && PhaseExplained(sys, f, now)
  }

  ghost predicate PhaseExplained(sys: System, f: Flight, now: int) {
    match f.phase
    case Found(answer) => f.incoming.Decoded? && AnswerExplained(sys, f.incoming.req, answer.reply, now)
    case Forwarded(response, at) => f.host in sys.hosts && at <= now && response == sys.backend(f.host, f.incoming, at)
    case _ => true
  }

  ghost predicate FlightsExplained(sys: System, s: State) {
    forall id :: id in s.flights ==> FlightExplained(sys, s.flights[id], s.now)
  }

  ghost predicate Inv(sys: System, s: State) {
    StoreExplained(sys, s) && FlightsExplained(sys, s)
  }

  lemma EntryStaysExplained(sys: System, key: string, item: Item<QueryResponse>, now: int, later: int)
    requires EntryExplained(sys, key, item, now) && now <= later
    ensures EntryExplained(sys, key, item, later)
  {
    var host: string, r: Request, fetched: int, stored: int :|
      WrittenFor(sys, key, item, now, host, r, fetched, stored);
    assert WrittenFor(sys, key, item, later, host, r, fetched, stored);
  }

  lemma FlightStaysExplained(sys: System, f: Flight, now: int, later: int)
    requires FlightExplained(sys, f, now) && now <= later
    ensures FlightExplained(sys, f, later)
  {
    if f.phase.Found? {
      var r, reply := f.incoming.req, f.phase.answer.reply;
      var host: string, asked: Request, fetched: int :| AnswerFrom(sys, r, reply, now, host, asked, fetched);
      assert AnswerFrom(sys, r, reply, later, host, asked, fetched);
    }
  }

  lemma LookupExplained(sys: System, s: State, r: Request)
    requires Inv(sys, s) && sys.asked(r) && ParamsLongEnough(r)
    requires LookupAnswer(sys.cfg, s.store, r, s.now).Ok?
    ensures AnswerExplained(sys, r, LookupAnswer(sys.cfg, s.store, r, s.now).value.reply, s.now)
  {
    var key := KeyOf(sys, r);
    var item := s.store[key];
    assert EntryExplained(sys, key, item, s.now);
    var host: string, asked: Request, fetched: int, stored: int :|
      WrittenFor(sys, key, item, s.now, host, asked, fetched, stored);
    assert AnswerFrom(sys, r, Rebuilt(r, item.data.result), s.now, host, asked, fetched);
  }

  lemma OfferExplained(sys: System, s: State, id: nat)
    requires Inv(sys, s) && Enabled(sys, s, Offer(id))
    ensures StoreExplained(sys, DoOffer(sys, s, id))
  {
    var f := s.flights[id];
    var t := DoOffer(sys, s, id);
    assert FlightExplained(sys, f, s.now);
    if sys.cfg.enabled && f.incoming.Decoded? && ParamsLongEnough(f.incoming.req)
       && Storable(sys.cfg, f.incoming.req, f.phase.response.reply) {
      var r := f.incoming.req;
      var key := KeyOf(sys, r);
      CacheableHasTtl(sys.cfg.readInt, sys.cfg.ttls, r);
      assert WrittenFor(sys, key, t.store[key], t.now, f.host, r, f.phase.at, s.now);
      forall k | k in t.store ensures EntryExplained(sys, k, t.store[k], t.now) {
        if k != key {
          assert EntryExplained(sys, k, s.store[k], s.now);
        }
      }
    }
  }

  lemma TickKeepsInv(sys: System, s: State, t: State)
    requires Inv(sys, s) && s.now <= t.now && t == s.(now := t.now)
    ensures Inv(sys, t)
  {
    forall key | key in t.store ensures EntryExplained(sys, key, t.store[key], t.now) {
      assert EntryExplained(sys, key, s.store[key], s.now);
      EntryStaysExplained(sys, key, s.store[key], s.now, t.now);
    }
    forall id | id in t.flights ensures FlightExplained(sys, t.flights[id], t.now) {
      assert FlightExplained(sys, s.flights[id], s.now);
      FlightStaysExplained(sys, s.flights[id], s.now, t.now);
    }
  }

  /** Dropping entries and moving one request on keeps the invariant if the new phase is explained. */
  lemma PhaseKeepsInv(sys: System, s: State, t: State, id: nat)
    requires Inv(sys, s) && t.now == s.now && id in t.flights
    requires forall key :: key in t.store ==> key in s.store && t.store[key] == s.store[key]
    requires forall i :: i in t.flights && i != id ==> i in s.flights && t.flights[i] == s.flights[i]
    requires FlightExplained(sys, t.flights[id], t.now)
    ensures Inv(sys, t)
  {
    forall key | key in t.store ensures EntryExplained(sys, key, t.store[key], t.now) {
      assert EntryExplained(sys, key, s.store[key], s.now);
    }
    forall i | i in t.flights ensures FlightExplained(sys, t.flights[i], t.now) {
      if i != id {
        assert FlightExplained(sys, s.flights[i], s.now);
      }
    }
  }

  /** A lookup drops at most entries and moves on one request. */
  lemma LookupFrame(sys: System, s: State, id: nat)
    requires Enabled(sys, s, Lookup(id))
    ensures var t := DoLookup(sys, s, id);
            && t.now == s.now && id in t.flights
            && (forall key :: key in t.store ==> key in s.store && t.store[key] == s.store[key])
            && (forall i :: i in t.flights && i != id ==> i in s.flights && t.flights[i] == s.flights[i])
  {
  }

  lemma LookupFlight(sys: System, s: State, id: nat)
    requires Inv(sys, s) && Enabled(sys, s, Lookup(id))
    ensures var t := DoLookup(sys, s, id);
            id in t.flights && FlightExplained(sys, t.flights[id], t.now)
  {
    var incoming := s.flights[id].incoming;
    assert FlightExplained(sys, s.flights[id], s.now);
    if sys.cfg.enabled && incoming.Decoded? && LookupAnswer(sys.cfg, s.store, incoming.req, s.now).Ok? {
      LookupExplained(sys, s, incoming.req);
    }
  }

  lemma LookupKeepsInv(sys: System, s: State, id: nat)
    requires Inv(sys, s) && Enabled(sys, s, Lookup(id))
    ensures Inv(sys, DoLookup(sys, s, id))
  {
    LookupFrame(sys, s, id);
    LookupFlight(sys, s, id);
    PhaseKeepsInv(sys, s, DoLookup(sys, s, id), id);
  }

  lemma ServeKeepsInv(sys: System, s: State, id: nat)
    requires Inv(sys, s) && Enabled(sys, s, Serve(id))
    ensures Inv(sys, DoServe(sys, s, id))
  {
    PhaseKeepsInv(sys, s, DoServe(sys, s, id), id);
  }

  lemma OfferKeepsInv(sys: System, s: State, id: nat)
    requires Inv(sys, s) && Enabled(sys, s, Offer(id))
    ensures Inv(sys, DoOffer(sys, s, id))
  {
    OfferExplained(sys, s, id);
    var t := DoOffer(sys, s, id);
    PhaseKeepsInv(sys, s, t.(store := s.store), id);
  }

  /** Every step keeps every stored entry, every cached answer and every reply in flight accounted for. */
  lemma StepKeepsInv(sys: System, s: State, step: Step)
    requires Inv(sys, s) && Enabled(sys, s, step)
    ensures Inv(sys, Apply(sys, s, step))
  {
    var t := Apply(sys, s, step);
    match step
    case Tick(_) => TickKeepsInv(sys, s, t);
    case Arrive(id, _, _) => PhaseKeepsInv(sys, s, t, id);
    case Lookup(id) => LookupKeepsInv(sys, s, id);
    case LookupFails(id) => PhaseKeepsInv(sys, s, t, id);
    case Abort(id) => PhaseKeepsInv(sys, s, t, id);
    case Serve(id) => ServeKeepsInv(sys, s, id);
    case Offer(id) => OfferKeepsInv(sys, s, id);
    case OfferFails(id) => PhaseKeepsInv(sys, s, t, id);
    case Evict(_) =>
      forall key | key in t.store ensures EntryExplained(sys, key, t.store[key], t.now) {
        assert EntryExplained(sys, key, s.store[key], s.now);
      }
  }

  lemma {:induction false} RunKeepsInv(sys: System, s: State, steps: seq<Step>)
    requires Inv(sys, s) && Legal(sys, s, steps)
    ensures Inv(sys, Execute(sys, s, steps))
    decreases |steps|
  {
    if steps != [] {
      StepKeepsInv(sys, s, steps[0]);
      RunKeepsInv(sys, Apply(sys, s, steps[0]), steps[1..]);
    }
  }

  /** In every reachable state the store holds only accepted replies to cacheable requests, each
      under the key of its request; for eth_getTransactionByHash only transactions in a block.
      Nothing is assumed of the hash function: the method can be read back from a key. */
  lemma StoreInvariant(sys: System, now: int, steps: seq<Step>, key: string)
    requires Legal(sys, Init(now), steps)
    requires key in Execute(sys, Init(now), steps).store
    ensures var s := Execute(sys, Init(now), steps);
            && EntryExplained(sys, key, s.store[key], s.now)
            && Informative(s.store[key].data.result)
            && (forall r: Request ::
                  r.name == "eth_getTransactionByHash" && KeyOf(sys, r) == key ==>
                    Mined(s.store[key].data.result))
  {
    RunKeepsInv(sys, Init(now), steps);
    var s := Execute(sys, Init(now), steps);
    var item := s.store[key];
    assert EntryExplained(sys, key, item, s.now);
    var host: string, asked: Request, fetched: int, stored: int :|
      WrittenFor(sys, key, item, s.now, host, asked, fetched, stored);
    AcceptedMeans(asked.name, sys.backend(host, Decoded(asked), fetched).reply);
    forall r: Request | r.name == "eth_getTransactionByHash" && KeyOf(sys, r) == key
      ensures Mined(item.data.result)
    {
      KeysAgree(sys.cfg.hashing, sys.cfg.prefix, asked, r);
    }
  }
}
