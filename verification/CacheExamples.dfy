/**
 Two small systems behind the cache. The first meets every hypothesis of the cache theorems at
 once; the second has a stable backend but a hash function that maps everything to one digest,
 and is not transparent.
 */
module CacheExamples {
  import opened Wrappers
  import opened Json
  import opened Decode
  import opened Text
  import opened CacheKeys
  import opened ServiceCache
  import opened CachePipeline
  import opened CacheTransparency
  import opened CacheRefinement

  function Digest(b: Byte): (bytes: seq<Byte>)
    ensures |bytes| == 32 && bytes[0] == b
  {
    seq(32, _ => b)
  }

  /** Two blocks asked for by hash. */
  const BLOCK_A: seq<Json> := [String("a")]
  const BLOCK_B: seq<Json> := [String("b")]

  predicate IsBlockQuestion(r: Request) {
    r.name == "eth_getBlockByHash" && (r.params == Some(BLOCK_A) || r.params == Some(BLOCK_B))
  }

  function Ask(params: seq<Json>): Request { Request("2.0", Number(1.0), "eth_getBlockByHash", Some(params)) }

  /** The backend echoes id and version and answers every question, always alike, with its params. */
  function Echo(host: string, incoming: Incoming, t: int): Response {
    match incoming
    case Undecoded(body) => Response(Undecodable(body), map[])
    case Decoded(r) =>
      Response(Rpc(r.version, Some(r.id), Some(Object(map["params" := ParamsDocument(r.params)])), None), map[])
  }

  function Encode(doc: Json): string { if doc == Array(BLOCK_A) then "a" else "b" }

  function Hash(text: string): seq<Byte> {
    if text == "eth_getBlockByHash" + "a" then Digest(0) else Digest(1)
  }

  function OneDigest(text: string): seq<Byte> { Digest(0) }

  function Service(sha256: string -> seq<Byte>): System {
    System(Config(_ => None, Hashing(Encode, sha256), "prefix", true, [], Ttls(60, 60, -1, 60)),
           {"one", "two"}, Echo, IsBlockQuestion)
  }

  lemma QuestionsDiffer()
    ensures BLOCK_A != BLOCK_B
  {
    assert BLOCK_A[0].text == "a" && BLOCK_B[0].text == "b";
    assert "a"[0] != "b"[0];
  }

  /** Every question is served, and its answer is settled at any time on either host. */
  lemma QuestionsAreSettled(sha256: string -> seq<Byte>, host: string, r: Request, t: int)
    requires host in Service(sha256).hosts && IsBlockQuestion(r)
    ensures Settled(Service(sha256), host, r, t)
  {
    assert CACHEABLE_BY_BLOCK_HASH[2] == "eth_getBlockByHash";
    assert BlockNumberParamIndex(r.name).None?;
    IndexedMethodsAreTheListed(r.name);
    assert !(r.name == "eth_getTransactionByHash");
  }

  lemma NoCollisions(r: Request, s: Request)
    requires IsBlockQuestion(r) && IsBlockQuestion(s)
    ensures NoCollision(Service(Hash).cfg.hashing, r, s)
  {
    QuestionsDiffer();
    var h := Service(Hash).cfg.hashing;
    assert "a"[0] != "b"[0];
    assert forall q: Request :: IsBlockQuestion(q) ==>
      h.marshal(ParamsDocument(q.params)) == if q.params == Some(BLOCK_A) then "a" else "b";
    assert Digest(0)[0] != Digest(1)[0];
    assert ("eth_getBlockByHash" + "a")[18] == 'a' && ("eth_getBlockByHash" + "b")[18] == 'b';
  }

  lemma AnswersNeverChange(sha256: string -> seq<Byte>)
    ensures AnswersStable(Service(sha256)) && Echoes(Service(sha256))
  {
  }

  /** The hypotheses of the cache theorems hold together, digests of 32 bytes included, of an enabled
      service on two hosts with two different questions that it does cache. */
  lemma HypothesesAreMet()
    ensures var sys := Service(Hash);
            && sys.cfg.enabled && ValidTtls(sys.cfg.ttls) && KeysUnambiguous(sys)
            && Stable(sys) && AnswersStable(sys) && Echoes(sys) && AlwaysTransparent(sys)
            && (forall text: string :: |sys.cfg.hashing.sha256(text)| == 32)
            && !SameQuery(Ask(BLOCK_A), Ask(BLOCK_B))
            && Settled(sys, "one", Ask(BLOCK_A), 0) && Settled(sys, "two", Ask(BLOCK_B), 0)
  {
    var sys := Service(Hash);
    QuestionsDiffer();
    forall r: Request, s: Request | Served(sys, r) && Served(sys, s) ensures NoCollision(sys.cfg.hashing, r, s) {
      NoCollisions(r, s);
    }
    AnswersNeverChange(Hash);
    TransparentIffAnswersStable(sys);
    StableIffAnswersStable(sys);
    QuestionsAreSettled(Hash, "one", Ask(BLOCK_A), 0);
    QuestionsAreSettled(Hash, "two", Ask(BLOCK_B), 0);
  }

  /** Collisions matter: with one digest for all texts the same backend, which never takes back an
      answer, is not served transparently. */
  lemma CollisionsAreNotTransparent()
    ensures AnswersStable(Service(OneDigest)) && !AlwaysTransparent(Service(OneDigest))
  {
    var sys := Service(OneDigest);
    var a, b := Ask(BLOCK_A), Ask(BLOCK_B);
    QuestionsDiffer();
    AnswersNeverChange(OneDigest);
    QuestionsAreSettled(OneDigest, "one", a, 0);
    QuestionsAreSettled(OneDigest, "one", b, 0);
    KeysAgree(sys.cfg.hashing, sys.cfg.prefix, a, b);
    assert PayloadOf(AnswerOf(sys, "one", a, 0)) != PayloadOf(AnswerOf(sys, "one", b, 0)) by {
      assert map["params" := Array(BLOCK_A)]["params"] != map["params" := Array(BLOCK_B)]["params"];
    }
    TransparentIffStable(sys);
  }
}
