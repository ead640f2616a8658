/**
 Cache keys (service/cachemdw/keys.go):
 <prefix>:evm-request:<method>:sha256:<hex digest of method followed by params>.
 */
module CacheKeys {
  import opened Wrappers
  import opened Json
  import opened Decode
  import opened Text

  /** The JSON encoder and SHA-256, left abstract. */
  datatype Hashing = Hashing(marshal: Json -> string, sha256: string -> seq<Byte>)

  /** A nil params slice is encoded as null. */
  function ParamsDocument(params: Option<seq<Json>>): Json {
    match params
    case None => Null
    case Some(items) => Array(items)
  }

  datatype ItemType = EvmRequest

  function ItemTypeName(t: ItemType): string { "evm-request" }

  function BuildCacheKey(prefix: string, t: ItemType, parts: seq<string>): string {
    Join([prefix, ItemTypeName(t)] + parts, ':')
  }

  /** What is hashed: the method followed by the encoded params. */
  function QueryText(h: Hashing, r: Request): string { r.name + h.marshal(ParamsDocument(r.params)) }

  function QueryDigest(h: Hashing, r: Request): string { Hex(h.sha256(QueryText(h, r))) }

  datatype KeyError = NilRequest

  function GetQueryKey(h: Hashing, prefix: string, r: Option<Request>): Result<string, KeyError> {
    match r
    case None => Err(NilRequest)
    case Some(req) => Ok(BuildCacheKey(prefix, EvmRequest, [req.name, "sha256", QueryDigest(h, req)]))
  }

  function Key(h: Hashing, prefix: string, r: Request): string {
    GetQueryKey(h, prefix, Some(r)).value
  }

  /** Two requests ask the same question when they agree on method and params. */
  predicate SameQuery(r: Request, s: Request) { r.name == s.name && r.params == s.params }

  lemma KeyLayout(h: Hashing, prefix: string, r: Request)
    ensures Key(h, prefix, r) ==
            prefix + [':'] + ("evm-request" + [':'] + (r.name + [':'] + ("sha256" + [':']
              + Hex(h.sha256(r.name + h.marshal(if r.params.None? then Null else Array(r.params.value)))))))
  {
    var p := [prefix, "evm-request", r.name, "sha256", QueryDigest(h, r)];
    assert [prefix, ItemTypeName(EvmRequest)] + [r.name, "sha256", QueryDigest(h, r)] == p;
    var q, q', q'' := p[1..], p[2..], p[3..];
    assert q[1..] == q' && q'[1..] == q'' && q''[1..] == [QueryDigest(h, r)];
    assert Join(q'', ':') == "sha256" + [':'] + QueryDigest(h, r);
    assert Join(q', ':') == r.name + [':'] + Join(q'', ':');
    assert Join(q, ':') == "evm-request" + [':'] + Join(q', ':');
    assert Join(p, ':') == prefix + [':'] + Join(q, ':');
  }

  /** The key without its prefix. */
  function KeyTail(h: Hashing, r: Request): string {
    "evm-request" + [':'] + (r.name + [':'] + ("sha256" + [':'] + QueryDigest(h, r)))
  }

  /** Method and digest can be read back from a key, even if the method contains colons. */
  lemma TailsAgree(h: Hashing, r: Request, s: Request)
    requires KeyTail(h, r) == KeyTail(h, s)
    ensures r.name == s.name && h.sha256(QueryText(h, r)) == h.sha256(QueryText(h, s))
  {
    var d, e := QueryDigest(h, r), QueryDigest(h, s);
    var u, v := r.name + [':'] + ("sha256" + [':'] + d), s.name + [':'] + ("sha256" + [':'] + e);
    DropPrefix("evm-request" + [':'], u, v);
    assert u == r.name + [':'] + "sha256" + [':'] + d && v == s.name + [':'] + "sha256" + [':'] + e;
    HexFree(h.sha256(QueryText(h, r)));
    HexFree(h.sha256(QueryText(h, s)));
    CutLastUnique(r.name + [':'] + "sha256", d, s.name + [':'] + "sha256", e, ':');
    CutLastUnique(r.name, "sha256", s.name, "sha256", ':');
    HexInjective(h.sha256(QueryText(h, r)), h.sha256(QueryText(h, s)));
  }

  /** Under one prefix two requests share a key exactly if they agree on the method and on the digest,
      whatever the hash function. */
  lemma KeysAgree(h: Hashing, prefix: string, r: Request, s: Request)
    ensures Key(h, prefix, r) == Key(h, prefix, s) <==>
            r.name == s.name && h.sha256(QueryText(h, r)) == h.sha256(QueryText(h, s))
  {
    KeyLayout(h, prefix, r);
    KeyLayout(h, prefix, s);
    if Key(h, prefix, r) == Key(h, prefix, s) {
      DropPrefix(prefix + [':'], KeyTail(h, r), KeyTail(h, s));
      TailsAgree(h, r, s);
    }
  }

  /** Requests that ask the same question share a key, whatever their id and version. */
  lemma SameQuerySameKey(h: Hashing, prefix: string, r: Request, s: Request)
    requires SameQuery(r, s)
    ensures Key(h, prefix, r) == Key(h, prefix, s)
  {
  }

  /** These two requests are told apart by the encoder and by the hash function: an assumption about
      the two texts at hand only. */
  predicate NoCollision(h: Hashing, r: Request, s: Request) {
    && (h.marshal(ParamsDocument(r.params)) == h.marshal(ParamsDocument(s.params)) ==> r.params == s.params)
    && (h.sha256(QueryText(h, r)) == h.sha256(QueryText(h, s)) ==> QueryText(h, r) == QueryText(h, s))
  }

  /** Under one prefix, whatever it contains, requests told apart share a key exactly if they ask the same. */
  lemma OneKeyOneQuestion(h: Hashing, prefix: string, r: Request, s: Request)
    requires NoCollision(h, r, s)
    ensures Key(h, prefix, r) == Key(h, prefix, s) <==> SameQuery(r, s)
  {
    KeysAgree(h, prefix, r, s);
    if Key(h, prefix, r) == Key(h, prefix, s) {
      DropPrefix(r.name, h.marshal(ParamsDocument(r.params)), h.marshal(ParamsDocument(s.params)));
    }
  }

  /** Two requests that the encoder and the hash tell apart share a key, under colon-free prefixes, if
      and only if prefix, method and params are equal. */
  lemma KeyInjective(h: Hashing, prefix: string, r: Request, prefix': string, s: Request)
    requires NoCollision(h, r, s) && ':' !in prefix && ':' !in prefix'
    ensures Key(h, prefix, r) == Key(h, prefix', s) <==> prefix == prefix' && SameQuery(r, s)
  {
    KeyLayout(h, prefix, r);
    KeyLayout(h, prefix', s);
    if Key(h, prefix, r) == Key(h, prefix', s) {
      CutUnique(prefix, KeyTail(h, r), prefix', KeyTail(h, s), ':');
      TailsAgree(h, r, s);
      DropPrefix(r.name, h.marshal(ParamsDocument(r.params)), h.marshal(ParamsDocument(s.params)));
    }
  }
}
