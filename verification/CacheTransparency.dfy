/**
 The cache is transparent exactly when the backend never takes back an answer that was
 accepted for caching: not on another host either, since a key does not mention the host,
 and not for another request that happens to share the key. Where no two requests that
 clients send collide, this is stability of the answer to every single question.
 */
module CacheTransparency {
  import opened Wrappers
  import opened Json
  import opened Decode
  import opened CacheKeys
  import opened ServiceCache
  import opened CachePipeline

  /** The part of a reply that answers the question: everything but the echo of id and version. */
  datatype Payload = Fields(result: Option<Json>, error: Option<RpcError>) | Bytes(raw: string)

  function PayloadOf(reply: Reply): Payload {
    match reply
    case Rpc(_, _, result, error) => Fields(result, error)
    case Undecodable(raw) => Bytes(raw)
  }

  function AnswerOf(sys: System, host: string, r: Request, t: int): Reply {
    sys.backend(host, Decoded(r), t).reply
  }

  /** At instant t the backend gives this request an answer that may be cached. */
  predicate Settled(sys: System, host: string, r: Request, t: int) {
    host in sys.hosts && Served(sys, r) && Accepted(r.name, AnswerOf(sys, host, r, t))
  }

  /** A settled answer is what every host keeps answering to every request under the same key. */
  ghost predicate Stable(sys: System) {
    forall h: string, r: Request, t: int, h': string, r': Request, t': int ::
      Settled(sys, h, r, t) && h' in sys.hosts && Served(sys, r') && KeyOf(sys, r) == KeyOf(sys, r') && t <= t' ==>
        PayloadOf(AnswerOf(sys, h', r', t')) == PayloadOf(AnswerOf(sys, h, r, t))
  }

  /** A settled answer is what every host keeps answering to the same question. */
  ghost predicate AnswersStable(sys: System) {
    forall h: string, r: Request, t: int, h': string, r': Request, t': int ::
      Settled(sys, h, r, t) && h' in sys.hosts && Served(sys, r') && SameQuery(r, r') && t <= t' ==>
        PayloadOf(AnswerOf(sys, h', r', t')) == PayloadOf(AnswerOf(sys, h, r, t))
  }

  /** No two requests that the cache serves collide; nothing is said about texts that are never sent. */
  ghost predicate KeysUnambiguous(sys: System) {
    forall r: Request, s: Request :: Served(sys, r) && Served(sys, s) ==> NoCollision(sys.cfg.hashing, r, s)
  }

  /** Without collisions it is enough to look at one question at a time. */
  lemma StableIffAnswersStable(sys: System)
    requires KeysUnambiguous(sys)
    ensures Stable(sys) <==> AnswersStable(sys)
  {
    forall r: Request, s: Request | Served(sys, r) && Served(sys, s)
      ensures KeyOf(sys, r) == KeyOf(sys, s) <==> SameQuery(r, s)
    {
      OneKeyOneQuestion(sys.cfg.hashing, sys.cfg.prefix, r, s);
    }
  }

  /** The client got what the backend would have answered at that moment. */
  predicate Transparent(sys: System, rec: Record) {
    if rec.host !in sys.hosts then rec.outcome == BadGateway
    else
      rec.outcome.Body?
      && PayloadOf(rec.outcome.reply) == PayloadOf(sys.backend(rec.host, rec.incoming, rec.time).reply)
  }

  /** A reply from the cache carries the id and version of its own request
      (section 5 of the JSON-RPC 2.0 Specification). */
  predicate OwnIdentity(rec: Record) {
    rec.fromCache ==>
      && rec.incoming.Decoded? && rec.outcome.Body? && rec.outcome.reply.Rpc?
      && rec.outcome.reply.version == rec.incoming.req.version
      && rec.outcome.reply.id == Some(rec.incoming.req.id)
  }

  ghost predicate AllTransparent(sys: System, s: State) {
    forall i :: 0 <= i < |s.log| ==> Transparent(sys, s.log[i])
  }

  ghost predicate AllOwnIdentity(s: State) {
    forall i :: 0 <= i < |s.log| ==> OwnIdentity(s.log[i])
  }

  // ------------------------------------------------------------- sufficiency

  lemma FoundAnswerIsCurrent(sys: System, host: string, r: Request, reply: Reply, now: int)
    requires Stable(sys) && host in sys.hosts && AnswerExplained(sys, r, reply, now)
    ensures PayloadOf(reply) == PayloadOf(AnswerOf(sys, host, r, now))
  {
    var h: string, asked: Request, fetched: int :| AnswerFrom(sys, r, reply, now, h, asked, fetched);
    assert Settled(sys, h, asked, fetched);
    assert PayloadOf(AnswerOf(sys, host, r, now)) == PayloadOf(AnswerOf(sys, h, asked, fetched));
  }

  /** A reply found in the cache was rebuilt for its own request. */
  ghost predicate FoundIsRebuilt(f: Flight) {
    f.phase.Found? ==>
      f.incoming.Decoded? && exists result: Json :: f.phase.answer.reply == Rebuilt(f.incoming.req, result)
  }

  ghost predicate FoundAreRebuilt(s: State) {
    forall id :: id in s.flights ==> FoundIsRebuilt(s.flights[id])
  }

  lemma StepKeepsRebuilt(sys: System, s: State, step: Step)
    requires FoundAreRebuilt(s) && Enabled(sys, s, step)
    ensures FoundAreRebuilt(Apply(sys, s, step))
  {
    var t := Apply(sys, s, step);
    forall id | id in t.flights ensures FoundIsRebuilt(t.flights[id]) {
      assert id in s.flights ==> FoundIsRebuilt(s.flights[id]);
    }
  }

  lemma StepKeepsIdentity(sys: System, s: State, step: Step)
    requires FoundAreRebuilt(s) && AllOwnIdentity(s) && Enabled(sys, s, step)
    ensures AllOwnIdentity(Apply(sys, s, step))
  {
    var t := Apply(sys, s, step);
    if step.Serve? {
      assert FoundIsRebuilt(s.flights[step.id]);
      forall i | 0 <= i < |t.log| ensures OwnIdentity(t.log[i]) {
        if i < |s.log| {
          assert t.log[i] == s.log[i];
        }
      }
    }
  }

  lemma StepKeepsTransparency(sys: System, s: State, step: Step)
    requires Inv(sys, s) && Stable(sys) && AllTransparent(sys, s) && Enabled(sys, s, step)
    ensures AllTransparent(sys, Apply(sys, s, step))
  {
    var t := Apply(sys, s, step);
    if step.Serve? {
      var f := s.flights[step.id];
      assert FlightExplained(sys, f, s.now);
      if f.host in sys.hosts && f.phase.Found? {
        FoundAnswerIsCurrent(sys, f.host, f.incoming.req, f.phase.answer.reply, s.now);
      }
      forall i | 0 <= i < |t.log| ensures Transparent(sys, t.log[i]) {
        if i < |s.log| {
          assert t.log[i] == s.log[i];
        }
      }
    }
  }

  lemma {:induction false} RunKeepsIdentity(sys: System, s: State, steps: seq<Step>)
    requires FoundAreRebuilt(s) && AllOwnIdentity(s) && Legal(sys, s, steps)
    ensures AllOwnIdentity(Execute(sys, s, steps))
    decreases |steps|
  {
    if steps != [] {
      StepKeepsRebuilt(sys, s, steps[0]);
      StepKeepsIdentity(sys, s, steps[0]);
      RunKeepsIdentity(sys, Apply(sys, s, steps[0]), steps[1..]);
    }
  }

  /** In every run of every system, whatever its backend and its hash function, hits answer under the
      requester's own id and version. */
  lemma HitsCarryOwnIdentity(sys: System, now: int, steps: seq<Step>)
    requires Legal(sys, Init(now), steps)
    ensures AllOwnIdentity(Execute(sys, Init(now), steps))
  {
    RunKeepsIdentity(sys, Init(now), steps);
  }

  lemma {:induction false} RunKeepsTransparency(sys: System, s: State, steps: seq<Step>)
    requires Inv(sys, s) && Stable(sys) && AllTransparent(sys, s) && Legal(sys, s, steps)
    ensures AllTransparent(sys, Execute(sys, s, steps))
    decreases |steps|
  {
    if steps != [] {
      StepKeepsInv(sys, s, steps[0]);
      StepKeepsTransparency(sys, s, steps[0]);
      RunKeepsTransparency(sys, Apply(sys, s, steps[0]), steps[1..]);
    }
  }

  // --------------------------------------------------------------- necessity

  /** One request fetches and stores an answer; a second one finds it and is served later. */
  function StaleRun(h: string, r: Request, h': string, r': Request, t': int): seq<Step> {
    [Arrive(0, h, Decoded(r)), Lookup(0), Serve(0), Offer(0),
     Arrive(1, h', Decoded(r')), Lookup(1), Tick(t'), Serve(1)]
  }

  lemma LegalCons(sys: System, s: State, step: Step, rest: seq<Step>)
    requires Enabled(sys, s, step) && Legal(sys, Apply(sys, s, step), rest)
    ensures Legal(sys, s, [step] + rest)
    ensures Execute(sys, s, [step] + rest) == Execute(sys, Apply(sys, s, step), rest)
  {
    assert ([step] + rest)[1..] == rest;
  }

  /** The store after the first request of a stale run has been answered and stored. */
  function AfterFirst(sys: System, h: string, r: Request, t: int): State
    requires Settled(sys, h, r, t)
  {
    var response := sys.backend(h, Decoded(r), t);
    State(AfterStore(sys.cfg, map[], r, response.reply, HeadersToCache(response.headers, sys.cfg.whitelist), t), t,
          map[0 := Flight(h, Decoded(r), Finished)],
          [Record(0, h, Decoded(r), t, Body(response.reply), false)])
  }

  lemma FirstRequestStores(sys: System, h: string, r: Request, t: int, rest: seq<Step>)
    requires sys.cfg.enabled && Settled(sys, h, r, t)
    requires Legal(sys, AfterFirst(sys, h, r, t), rest)
    ensures var steps := [Arrive(0, h, Decoded(r))] + ([Lookup(0)] + ([Serve(0)] + ([Offer(0)] + rest)));
            && Legal(sys, Init(t), steps)
            && Execute(sys, Init(t), steps) == Execute(sys, AfterFirst(sys, h, r, t), rest)
  {
    var s1 := Apply(sys, Init(t), Arrive(0, h, Decoded(r)));
    var s2 := Apply(sys, s1, Lookup(0));
    assert s2.store == map[] && s2.flights[0] == Flight(h, Decoded(r), Missed);
    var s3 := Apply(sys, s2, Serve(0));
    assert s3.flights[0].phase == Forwarded(sys.backend(h, Decoded(r), t), t);
    var s4 := Apply(sys, s3, Offer(0));
    assert s4 == AfterFirst(sys, h, r, t) by {
      assert s4.flights == map[0 := Flight(h, Decoded(r), Finished)];
    }
    LegalCons(sys, s3, Offer(0), rest);
    LegalCons(sys, s2, Serve(0), [Offer(0)] + rest);
    LegalCons(sys, s1, Lookup(0), [Serve(0)] + ([Offer(0)] + rest));
    LegalCons(sys, Init(t), Arrive(0, h, Decoded(r)), [Lookup(0)] + ([Serve(0)] + ([Offer(0)] + rest)));
  }

  lemma SecondRequestHits(sys: System, h: string, r: Request, t: int, h': string, r': Request, t': int)
    requires sys.cfg.enabled && ValidTtls(sys.cfg.ttls) && Settled(sys, h, r, t)
    requires h' in sys.hosts && Served(sys, r') && KeyOf(sys, r) == KeyOf(sys, r') && t <= t'
    ensures var steps := [Arrive(1, h', Decoded(r'))] + ([Lookup(1)] + ([Tick(t')] + [Serve(1)]));
            && Legal(sys, AfterFirst(sys, h, r, t), steps)
            && Execute(sys, AfterFirst(sys, h, r, t), steps).log
               == AfterFirst(sys, h, r, t).log
                  + [Record(1, h', Decoded(r'), t', Body(Rebuilt(r', AnswerOf(sys, h, r, t).result.value)), true)]
  {
    var s := AfterFirst(sys, h, r, t);
    CacheableHasTtl(sys.cfg.readInt, sys.cfg.ttls, r);
    FreshEntryIsLive(t, GetTtl(sys.cfg.ttls, r.name).value);
    var s1 := Apply(sys, s, Arrive(1, h', Decoded(r')));
    var answer := LookupAnswer(sys.cfg, s1.store, r', t);
    assert answer.Ok? && answer.value.reply == Rebuilt(r', AnswerOf(sys, h, r, t).result.value);
    var s2 := Apply(sys, s1, Lookup(1));
    assert s2.flights[1] == Flight(h', Decoded(r'), Found(answer.value));
    var s3 := Apply(sys, s2, Tick(t'));
    var s4 := Apply(sys, s3, Serve(1));
    LegalCons(sys, s3, Serve(1), []);
    assert [Serve(1)] + [] == [Serve(1)];
    LegalCons(sys, s2, Tick(t'), [Serve(1)]);
    LegalCons(sys, s1, Lookup(1), [Tick(t')] + [Serve(1)]);
    LegalCons(sys, s, Arrive(1, h', Decoded(r')), [Lookup(1)] + ([Tick(t')] + [Serve(1)]));
  }

  /** A backend that takes back a settled answer is caught out by an eight-step run. */
  lemma StaleRunIsNotTransparent(sys: System, h: string, r: Request, t: int, h': string, r': Request, t': int)
    requires sys.cfg.enabled && ValidTtls(sys.cfg.ttls) && Settled(sys, h, r, t)
    requires h' in sys.hosts && Served(sys, r') && KeyOf(sys, r) == KeyOf(sys, r') && t <= t'
    requires PayloadOf(AnswerOf(sys, h', r', t')) != PayloadOf(AnswerOf(sys, h, r, t))
    ensures Legal(sys, Init(t), StaleRun(h, r, h', r', t'))
    ensures !AllTransparent(sys, Execute(sys, Init(t), StaleRun(h, r, h', r', t')))
  {
    var second := [Arrive(1, h', Decoded(r'))] + ([Lookup(1)] + ([Tick(t')] + [Serve(1)]));
    var steps := [Arrive(0, h, Decoded(r))] + ([Lookup(0)] + ([Serve(0)] + ([Offer(0)] + second)));
    assert steps == StaleRun(h, r, h', r', t');
    SecondRequestHits(sys, h, r, t, h', r', t');
    FirstRequestStores(sys, h, r, t, second);
    var rec := Record(1, h', Decoded(r'), t', Body(Rebuilt(r', AnswerOf(sys, h, r, t).result.value)), true);
    assert Execute(sys, Init(t), steps).log[1] == rec;
    assert !Transparent(sys, rec);
  }

  /** Every response of every interleaved run is what the backend would answer at that moment. */
  ghost predicate AlwaysTransparent(sys: System) {
    forall now: int, steps: seq<Step> ::
      Legal(sys, Init(now), steps) ==> AllTransparent(sys, Execute(sys, Init(now), steps))
  }

  /** The main theorem: with the cache enabled and valid durations every run is transparent if and
      only if no host ever takes back a settled answer for its key. Nothing is assumed of the
      hash function or the encoder. */
  lemma TransparentIffStable(sys: System)
    requires sys.cfg.enabled && ValidTtls(sys.cfg.ttls)
    ensures AlwaysTransparent(sys) <==> Stable(sys)
  {
    if Stable(sys) {
      forall now: int, steps: seq<Step> | Legal(sys, Init(now), steps)
        ensures AllTransparent(sys, Execute(sys, Init(now), steps))
      {
        RunKeepsTransparency(sys, Init(now), steps);
      }
    } else {
      var h: string, r: Request, t: int, h': string, r': Request, t': int :|
        Settled(sys, h, r, t) && h' in sys.hosts && Served(sys, r') && KeyOf(sys, r) == KeyOf(sys, r') && t <= t'
        && PayloadOf(AnswerOf(sys, h', r', t')) != PayloadOf(AnswerOf(sys, h, r, t));
      StaleRunIsNotTransparent(sys, h, r, t, h', r', t');
    }
  }

  /** Where the requests that clients send do not collide, the condition is that no host ever takes back
      a settled answer to the same question. */
  lemma TransparentIffAnswersStable(sys: System)
    requires sys.cfg.enabled && ValidTtls(sys.cfg.ttls) && KeysUnambiguous(sys)
    ensures AlwaysTransparent(sys) <==> AnswersStable(sys)
  {
    TransparentIffStable(sys);
    StableIffAnswersStable(sys);
  }

  /** With the cache disabled every run is transparent, whatever the backend does. */
  lemma {:induction false} DisabledCacheIsTransparent(sys: System, s: State, steps: seq<Step>)
    requires !sys.cfg.enabled && AllTransparent(sys, s) && Legal(sys, s, steps)
    requires forall id :: id in s.flights ==> !s.flights[id].phase.Found?
    ensures AllTransparent(sys, Execute(sys, s, steps))
    decreases |steps|
  {
    if steps != [] {
      var t := Apply(sys, s, steps[0]);
      forall i | 0 <= i < |t.log| ensures Transparent(sys, t.log[i]) {
        if i < |s.log| {
          assert t.log[i] == s.log[i];
        }
      }
      DisabledCacheIsTransparent(sys, t, steps[1..]);
    }
  }
}
