/**
 Deciding what may be cached, for how long, and how a stored result becomes a reply
 (service/cachemdw/cache.go, service/cachemdw/response.go, and the header handling of
 service/cachemdw/caching_middleware.go and service/middleware.go).
 */
module ServiceCache {
  import opened Wrappers
  import opened Json
  import opened Decode
  import opened CacheKeys
  import opened CacheStore
  import Calendar

  // -------------------------------------------------------------- responses

  datatype RpcError = RpcError(code: int, message: string)

  /** A response body: a decoded JSON-RPC response, or bytes that do not decode to one.
      An absent id or result is None; an absent version is the empty string. */
  datatype Reply =
    | Rpc(version: string, id: Option<Json>, result: Option<Json>, error: Option<RpcError>)
    | Undecodable(raw: string)

  predicate IsResultEmpty(result: Option<Json>) {
    match result
    case None => true
    case Some(Array(items)) => |items| == 0
    case Some(String(s)) => s == "" || s == "0x0" || s == "0x"
    case Some(Boolean(b)) => !b
    case Some(Null) => true
    case Some(_) => false
  }

  predicate IsCacheableReply(reply: Reply) {
    reply.Rpc? && reply.error.None? && !IsResultEmpty(reply.result)
  }

  const TX_STRING_FIELDS: seq<string> := [
    "from", "gas", "gasPrice", "hash", "input", "nonce", "to", "value", "type", "chainId", "v", "r", "s"
  ]

  /** An interface-typed struct field after decoding: absent and null are both nil. */
  function Field(fields: map<string, Json>, name: string): Json {
    if name in fields then fields[name] else Null
  }

  /** Decoding into the tx struct succeeds: string fields hold strings or null. */
  predicate DecodesAsTx(doc: Json) {
    match doc
    case Null => true
    case Object(fields) =>
      forall i :: 0 <= i < |TX_STRING_FIELDS| ==>
        Field(fields, TX_STRING_FIELDS[i]).String? || Field(fields, TX_STRING_FIELDS[i]).Null?
    case _ => false
  }

  predicate Present(doc: Json) { doc != Null && doc != String("") }

  predicate IsIncludedInBlock(doc: Json) {
    && doc.Object?
    && Present(Field(doc.fields, "blockHash"))
    && Present(Field(doc.fields, "blockNumber"))
    && Present(Field(doc.fields, "transactionIndex"))
  }

  predicate IsFinal(name: string, result: Option<Json>) {
    name == "eth_getTransactionByHash" ==>
      result.Some? && DecodesAsTx(result.value) && IsIncludedInBlock(result.value)
  }

  /** The reply may be stored: no error, a result that is not empty and will not change. */
  predicate Accepted(name: string, reply: Reply) {
    IsCacheableReply(reply) && IsFinal(name, reply.result)
  }

  /** A result that says something: not null, false, an empty list or one of the empty strings. */
  predicate Informative(doc: Json) {
    && doc != Null && doc != Boolean(false) && doc != Array([])
    && doc != String("") && doc != String("0x") && doc != String("0x0")
  }

  /** A transaction that names its block and its place in it. */
  predicate Mined(doc: Json) {
    && doc.Object?
    && forall name :: name in {"blockHash", "blockNumber", "transactionIndex"} ==>
         name in doc.fields && doc.fields[name] != Null && doc.fields[name] != String("")
  }

  /** Where a transaction has its string fields, they hold strings or null. */
  predicate WellTyped(doc: Json)
    requires doc.Object?
  {
    forall name :: name in TX_STRING_FIELDS && name in doc.fields ==>
      doc.fields[name].String? || doc.fields[name].Null?
  }

  lemma DecodesMeans(doc: Json)
    requires doc.Object?
    ensures DecodesAsTx(doc) <==> WellTyped(doc)
  {
    if WellTyped(doc) {
      forall i | 0 <= i < |TX_STRING_FIELDS|
        ensures Field(doc.fields, TX_STRING_FIELDS[i]).String? || Field(doc.fields, TX_STRING_FIELDS[i]).Null?
      {
        assert TX_STRING_FIELDS[i] in TX_STRING_FIELDS;
      }
    }
  }

  lemma MinedMeans(doc: Json)
    ensures IsIncludedInBlock(doc) <==> Mined(doc)
  {
    assert "blockHash" in {"blockHash", "blockNumber", "transactionIndex"};
    assert "blockNumber" in {"blockHash", "blockNumber", "transactionIndex"};
    assert "transactionIndex" in {"blockHash", "blockNumber", "transactionIndex"};
  }

  lemma InformativeMeans(doc: Json)
    ensures IsResultEmpty(Some(doc)) <==> !Informative(doc)
  {
  }

  /** What is accepted for caching: an informative result without error and, for a transaction by
      hash, a well-formed transaction that is in a block. */
  lemma AcceptedMeans(name: string, reply: Reply)
    ensures Accepted(name, reply) <==>
            && reply.Rpc? && reply.error.None? && reply.result.Some? && Informative(reply.result.value)
            && (name == "eth_getTransactionByHash" ==> Mined(reply.result.value) && WellTyped(reply.result.value))
  {
    if reply.Rpc? && reply.result.Some? {
      var doc := reply.result.value;
      InformativeMeans(doc);
      MinedMeans(doc);
      if doc.Object? {
        DecodesMeans(doc);
      }
    }
  }

  // --------------------------------------------------------------- requests

  predicate IsCacheable(readInt: IntReader, r: Option<Request>)
    requires r.Some? ==> ParamsLongEnough(r.value)
  {
    match r
    case None => false
    case Some(req) =>
      if req.name == "" then false
      else if HasBlockNumberParam(req.name) then
        (match ParseBlockNumber(readInt, req)
         case Err(_) => false
         case Ok(height) => height > 0 || height == EARLIEST)
      else HasBlockHashParam(req.name) || IsStatic(req.name) || HasTxHashParam(req.name)
  }

  /** Cacheability does not depend on the id or the version of a request. */
  lemma CacheableSameQuery(readInt: IntReader, r: Request, s: Request)
    requires SameQuery(r, s) && ParamsLongEnough(r)
    ensures ParamsLongEnough(s)
    ensures IsCacheable(readInt, Some(r)) <==> IsCacheable(readInt, Some(s))
  {
  }

  const HASH_METHODS: set<string> := {
    "eth_getBlockTransactionCountByHash", "eth_getUncleCountByBlockHash", "eth_getBlockByHash",
    "eth_getUncleByBlockHashAndIndex", "eth_getTransactionByBlockHashAndIndex"
  }
  const FIXED_METHODS: set<string> := {"eth_chainId", "net_version"}
  const TX_METHODS: set<string> := {"eth_getTransactionReceipt", "eth_getTransactionByHash"}

  /** The four classes of cacheable methods do not overlap, and three of them are spelled out here. */
  lemma Classes(name: string)
    ensures HasBlockHashParam(name) <==> name in HASH_METHODS
    ensures IsStatic(name) <==> name in FIXED_METHODS
    ensures HasTxHashParam(name) <==> name in TX_METHODS
    ensures name in HASH_METHODS + FIXED_METHODS + TX_METHODS ==> !HasBlockNumberParam(name) && name != ""
  {
    var h, f, t := CACHEABLE_BY_BLOCK_HASH, STATIC_METHODS, CACHEABLE_BY_TX_HASH;
    assert h[0] == "eth_getBlockTransactionCountByHash" && h[1] == "eth_getUncleCountByBlockHash";
    assert h[2] == "eth_getBlockByHash" && h[3] == "eth_getUncleByBlockHashAndIndex";
    assert h[4] == "eth_getTransactionByBlockHashAndIndex" && f[0] == "eth_chainId" && f[1] == "net_version";
    assert t[0] == "eth_getTransactionReceipt" && t[1] == "eth_getTransactionByHash";
    IndexedMethodsAreTheListed(name);
  }

  /** Apart from block numbers, a request is cacheable exactly if its method is of one of three classes. */
  lemma CacheableByMethod(readInt: IntReader, r: Request)
    requires ParamsLongEnough(r) && !HasBlockNumberParam(r.name)
    ensures IsCacheable(readInt, Some(r)) <==> r.name in HASH_METHODS + FIXED_METHODS + TX_METHODS
  {
    Classes(r.name);
  }

  datatype Ttls = Ttls(blockNumber: int, blockHash: int, static_: int, txHash: int)

  predicate ValidTtl(ttl: int) { ttl > 0 || ttl == INDEFINITELY }

  /** checkTTLConfig on the four durations. */
  predicate ValidTtls(t: Ttls) {
    ValidTtl(t.blockNumber) && ValidTtl(t.blockHash) && ValidTtl(t.static_) && ValidTtl(t.txHash)
  }

  datatype CacheError = RequestNotCacheable | ResponseNotCacheable | ResponseNotFinal | BadResponse | NotFound

  function GetTtl(t: Ttls, name: string): Result<int, CacheError> {
    if HasBlockNumberParam(name) then Ok(t.blockNumber)
    else if HasBlockHashParam(name) then Ok(t.blockHash)
    else if IsStatic(name) then Ok(t.static_)
    else if HasTxHashParam(name) then Ok(t.txHash)
    else Err(RequestNotCacheable)
  }

  /** Every request that may be cached has a duration, a valid one in a validated config. */
  lemma CacheableHasTtl(readInt: IntReader, t: Ttls, r: Request)
    requires ParamsLongEnough(r) && IsCacheable(readInt, Some(r))
    ensures GetTtl(t, r.name).Ok?
    ensures ValidTtls(t) ==> ValidTtl(GetTtl(t, r.name).value)
  {
  }

  /** A duration is valid exactly if what is written with it outlives the instant of the write. */
  lemma ValidTtlMeans(ttl: int, now: int)
    ensures ValidTtl(ttl) <==> StillThere(now, ttl, now + 1)
  {
    Calendar.CenturyIsLong(now);
  }

  /** Each class of methods has its own duration, and there is no other. */
  lemma TtlByClass(t: Ttls, name: string)
    ensures HasBlockNumberParam(name) ==> GetTtl(t, name) == Ok(t.blockNumber)
    ensures name in HASH_METHODS ==> GetTtl(t, name) == Ok(t.blockHash)
    ensures name in FIXED_METHODS ==> GetTtl(t, name) == Ok(t.static_)
    ensures name in TX_METHODS ==> GetTtl(t, name) == Ok(t.txHash)
    ensures GetTtl(t, name).Ok? ==> HasBlockNumberParam(name) || name in HASH_METHODS + FIXED_METHODS + TX_METHODS
  {
    Classes(name);
    if name in TX_METHODS {
      assert name !in HASH_METHODS && name !in FIXED_METHODS;
    }
    if name in FIXED_METHODS {
      assert name !in HASH_METHODS;
    }
  }

  /** With a valid duration an entry is readable at the instant it is written. */
  lemma FreshEntryIsLive(now: int, ttl: int)
    requires ValidTtl(ttl)
    ensures now <= Expiry(now, ttl)
  {
    Calendar.CenturyIsLong(now);
  }

  // ---------------------------------------------------------------- headers

  /** http.Header with canonical names. */
  type Header = map<string, seq<string>>

  function HeaderGet(h: Header, name: string): string {
    if name in h && |h[name]| > 0 then h[name][0] else ""
  }

  function HeaderSet(h: Header, name: string, value: string): Header { h[name := [value]] }

  function HeadersToCache(h: Header, whitelist: seq<string>): map<string, string> {
    map name | name in whitelist && HeaderGet(h, name) != "" :: HeaderGet(h, name)
  }

  /** getHeadersToCache. */
  method GetHeadersToCache(h: Header, whitelist: seq<string>) returns (cached: map<string, string>)
    ensures cached == HeadersToCache(h, whitelist)
    ensures forall name :: name in cached <==> name in whitelist && name in h && h[name] != [] && h[name][0] != ""
    ensures forall name :: name in cached ==> cached[name] == h[name][0]
  {
    cached := map[];
    for i := 0 to |whitelist|
      invariant cached == HeadersToCache(h, whitelist[..i])
    {
      assert whitelist[..i + 1] == whitelist[..i] + [whitelist[i]];
      var value := HeaderGet(h, whitelist[i]);
      if value == "" {
        continue;
      }
      cached := cached[whitelist[i] := value];
    }
    assert whitelist[..|whitelist|] == whitelist;
  }

  const CACHE_STATUS: string := "X-Kava-Proxy-Cache-Status"
  const CONTENT_TYPE: string := "Content-Type"
  const ALLOW_ORIGIN: string := "Access-Control-Allow-Origin"
  const HIT: string := "HIT"
  const MISS: string := "MISS"
  const PARTIAL: string := "PARTIAL"

  predicate IsCacheHitHeaders(h: Header) { HeaderGet(h, CACHE_STATUS) == HIT }

  /** A value unless it is empty, else the other one. */
  function Or(value: string, other: string): string { if value != "" then value else other }

  function Cached(cached: map<string, string>, name: string): string { if name in cached then cached[name] else "" }

  /** The loop over the cached headers: what is already set is kept. */
  method AddCachedHeaders(first: Header, cached: map<string, string>) returns (h: Header)
    ensures forall name :: HeaderGet(h, name) == Or(HeaderGet(first, name), Cached(cached, name))
  {
    h := first;
    var names := cached.Keys;
    while names != {}
      invariant names <= cached.Keys
      invariant forall name ::
        HeaderGet(h, name) == if name in names then HeaderGet(first, name) else Or(HeaderGet(first, name), Cached(cached, name))
      decreases names
    {
      var name :| name in names;
      if HeaderGet(h, name) == "" && cached[name] != "" {
        h := HeaderSet(h, name, cached[name]);
      }
      names := names - {name};
    }
  }

  const JSON_TYPE: string := "application/json"

  lemma HeaderNamesDiffer()
    ensures CACHE_STATUS != CONTENT_TYPE && CACHE_STATUS != ALLOW_ORIGIN && CONTENT_TYPE != ALLOW_ORIGIN
    ensures HIT != "" && JSON_TYPE != ""
  {
    assert |CACHE_STATUS| == 25 && |CONTENT_TYPE| == 12 && |ALLOW_ORIGIN| == 27;
    assert |HIT| == 3 && |JSON_TYPE| == 16;
  }

  /** The headers of a response served from the cache. What is already set wins over what was
      cached, what was cached wins over the configured origin, and no cached header can
      disguise the response as a miss or change its content type. */
  method HitHeaders(w: Header, cached: map<string, string>, allowOrigin: string) returns (h: Header)
    ensures IsCacheHitHeaders(h) && HeaderGet(h, CONTENT_TYPE) == JSON_TYPE
    ensures forall name :: name != CACHE_STATUS && name != CONTENT_TYPE ==>
      HeaderGet(h, name) ==
        Or(HeaderGet(w, name), Or(Cached(cached, name), if name == ALLOW_ORIGIN then allowOrigin else ""))
  {
    HeaderNamesDiffer();
    var marked := HeaderSet(HeaderSet(w, CACHE_STATUS, HIT), CONTENT_TYPE, JSON_TYPE);
    assert HeaderGet(marked, CACHE_STATUS) == HIT && HeaderGet(marked, CONTENT_TYPE) == JSON_TYPE;
    h := AddCachedHeaders(marked, cached);
    if HeaderGet(h, ALLOW_ORIGIN) == "" && allowOrigin != "" {
      h := HeaderSet(h, ALLOW_ORIGIN, allowOrigin);
    }
  }

  // -------------------------------------------------------- reading and writing

  /** What is stored for a request: only the result, and whitelisted headers. */
  datatype QueryResponse = QueryResponse(result: Json, headers: map<string, string>)

  datatype Config = Config(
    readInt: IntReader, hashing: Hashing, prefix: string,
    enabled: bool, whitelist: seq<string>, ttls: Ttls)

  datatype CachedAnswer = CachedAnswer(reply: Reply, headers: map<string, string>)

  /** The reply rebuilt around a stored result for the request at hand. */
  function Rebuilt(r: Request, result: Json): Reply {
    Rpc(r.version, Some(r.id), Some(result), None)
  }

  function LookupAnswer(cfg: Config, s: Store<QueryResponse>, r: Request, now: int): Result<CachedAnswer, CacheError>
    requires ParamsLongEnough(r)
  {
    if !IsCacheable(cfg.readInt, Some(r)) then Err(RequestNotCacheable)
    else
      match Find(s, Key(cfg.hashing, cfg.prefix, r), now)
      case None => Err(NotFound)
      case Some(q) => Ok(CachedAnswer(Rebuilt(r, q.result), q.headers))
  }

  function AfterLookup(cfg: Config, s: Store<QueryResponse>, r: Request, now: int): Store<QueryResponse>
    requires ParamsLongEnough(r)
  {
    if IsCacheable(cfg.readInt, Some(r)) then Touch(s, Key(cfg.hashing, cfg.prefix, r), now) else s
  }

  predicate Storable(cfg: Config, r: Request, reply: Reply)
    requires ParamsLongEnough(r)
  {
    IsCacheable(cfg.readInt, Some(r)) && Accepted(r.name, reply)
  }

  function AfterStore(cfg: Config, s: Store<QueryResponse>, r: Request, reply: Reply,
                      headers: map<string, string>, now: int): Store<QueryResponse>
    requires ParamsLongEnough(r)
  {
    if Storable(cfg, r, reply) then
      CacheableHasTtl(cfg.readInt, cfg.ttls, r);
      SetItem(s, Key(cfg.hashing, cfg.prefix, r), QueryResponse(reply.result.value, headers),
              GetTtl(cfg.ttls, r.name).value, now)
    else s
  }

  /** What one request stored, another with the same key finds exactly as long as the duration of the
      class lasts: the result and the headers, under the other's own id and version. */
  lemma StoredAnswerIsFound(cfg: Config, s: Store<QueryResponse>, r: Request, reply: Reply,
                            headers: map<string, string>, written: int, other: Request, now: int)
    requires ParamsLongEnough(r) && Storable(cfg, r, reply) && GetTtl(cfg.ttls, r.name).Ok?
    requires ParamsLongEnough(other) && IsCacheable(cfg.readInt, Some(other))
    requires Key(cfg.hashing, cfg.prefix, r) == Key(cfg.hashing, cfg.prefix, other)
    ensures LookupAnswer(cfg, AfterStore(cfg, s, r, reply, headers, written), other, now)
            == if StillThere(written, GetTtl(cfg.ttls, r.name).value, now)
               then Ok(CachedAnswer(Rpc(other.version, Some(other.id), reply.result, None), headers))
               else Err(NotFound)
  {
    FoundWhileItLasts(s, Key(cfg.hashing, cfg.prefix, r), QueryResponse(reply.result.value, headers),
                      GetTtl(cfg.ttls, r.name).value, written, now);
  }

  /** Storing and looking up leave every other live entry as it is. */
  lemma OthersAreKept(cfg: Config, s: Store<QueryResponse>, r: Request, reply: Reply,
                      headers: map<string, string>, now: int, key: string)
    requires ParamsLongEnough(r) && key in s
    ensures Live(s[key], now) ==>
      key in AfterLookup(cfg, s, r, now) && AfterLookup(cfg, s, r, now)[key] == s[key]
    ensures key != Key(cfg.hashing, cfg.prefix, r) ==>
      && key in AfterStore(cfg, s, r, reply, headers, now) && AfterStore(cfg, s, r, reply, headers, now)[key] == s[key]
      && key in AfterLookup(cfg, s, r, now) && AfterLookup(cfg, s, r, now)[key] == s[key]
  {
  }

  class CacheService {
    const cfg: Config
    const client: InMemoryCache<QueryResponse>

    constructor (cfg: Config, client: InMemoryCache<QueryResponse>)
      ensures this.cfg == cfg && this.client == client
    {
      this.cfg := cfg;
      this.client := client;
    }

    method GetCachedQueryResponse(r: Request, now: int) returns (answer: Result<CachedAnswer, CacheError>)
      requires ParamsLongEnough(r)
      modifies client
      ensures answer == LookupAnswer(cfg, old(client.data), r, now)
      ensures client.data == AfterLookup(cfg, old(client.data), r, now)
    {
      if !IsCacheable(cfg.readInt, Some(r)) {
        return Err(RequestNotCacheable);
      }
      var key := GetQueryKey(cfg.hashing, cfg.prefix, Some(r));
      var found := client.Get(key.value, now);
      if found.None? {
        return Err(NotFound);
      }
      var response := Rpc(r.version, Some(r.id), Some(found.value.result), None);
      return Ok(CachedAnswer(response, found.value.headers));
    }

    /** The store changes exactly when there is no error, and the error names the first check that failed. */
    method CacheQueryResponse(r: Request, reply: Reply, headers: map<string, string>, now: int)
      returns (err: Option<CacheError>)
      requires ParamsLongEnough(r)
      modifies client
      ensures client.data == AfterStore(cfg, old(client.data), r, reply, headers, now)
      ensures err.None? <==> Storable(cfg, r, reply)
      ensures err == Some(RequestNotCacheable) <==> !IsCacheable(cfg.readInt, Some(r))
      ensures err == Some(BadResponse) <==> IsCacheable(cfg.readInt, Some(r)) && reply.Undecodable?
      ensures err == Some(ResponseNotCacheable) <==>
        IsCacheable(cfg.readInt, Some(r)) && reply.Rpc? && (reply.error.Some? || IsResultEmpty(reply.result))
      ensures err == Some(ResponseNotFinal) <==>
        IsCacheable(cfg.readInt, Some(r)) && IsCacheableReply(reply) && !IsFinal(r.name, reply.result)
    {
      if !IsCacheable(cfg.readInt, Some(r)) {
        return Some(RequestNotCacheable);
      }
      if reply.Undecodable? {
        return Some(BadResponse);
      }
      if !IsCacheableReply(reply) {
        return Some(ResponseNotCacheable);
      }
      if !IsFinal(r.name, reply.result) {
        return Some(ResponseNotFinal);
      }
      var key := GetQueryKey(cfg.hashing, cfg.prefix, Some(r));
      var ttl := GetTtl(cfg.ttls, r.name);
      CacheableHasTtl(cfg.readInt, cfg.ttls, r);
      client.Set(key.value, QueryResponse(reply.result.value, headers), ttl.value, now);
      return None;
    }
  }
}
