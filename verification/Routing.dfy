/**
 What the composed router means (architecture/PROXY_ROUTING.md): the latest-like requests of a
 host with a pruning backend go there, requests for a height inside a shard go to that
 shard, and everything else goes to the default backend.
 */
module Routing {
  import opened Wrappers
  import opened Json
  import opened Decode
  import opened BlockParams
  import opened IntervalMap
  import opened Proxies
  import ServiceCache
  import ShardConfig
  import ShardRoundTrip

  // -------------------------------------------------------------- the declarative rule

  /** The request has this block parameter. */
  ghost predicate HasBlockParam(r: Incoming, doc: Json)
    requires LongEnough(r)
  {
    && r.decoded.Some? && r.decoded.value.params.Some?
    && var params := r.decoded.value.params.value;
       exists i :: 0 <= i < |params| && BlockAt(r.decoded.value.name, i) && params[i] == doc
  }

  /** The request is about the newest state: the method needs no history, or its block parameter is
      "latest" or one of its kin. */
  ghost predicate AsksForLatest(readInt: IntReader, r: Incoming)
    requires LongEnough(r)
  {
    && r.decoded.Some?
    && (|| RequiresNoHistory(r.decoded.value.name)
        || exists doc :: HasBlockParam(r, doc) && MeaningOf(readInt, doc) == Newest)
  }

  /** The request is about one height; "earliest" is height 1. */
  ghost predicate AsksForHeight(readInt: IntReader, r: Incoming, height: nat)
    requires LongEnough(r)
  {
    exists doc :: HasBlockParam(r, doc) && MeaningOf(readInt, doc) == Height(height)
  }

  // The same two questions, asked of the code that the parser returns.

  ghost predicate CodedLatest(readInt: IntReader, r: Incoming)
    requires LongEnough(r)
  {
    && r.decoded.Some? && ParseBlockNumber(readInt, r.decoded.value).Ok?
    && LatestCode(ParseBlockNumber(readInt, r.decoded.value).value)
  }

  ghost predicate CodedHeight(readInt: IntReader, r: Incoming, height: nat)
    requires LongEnough(r)
  {
    && r.decoded.Some? && ParseBlockNumber(readInt, r.decoded.value).Ok?
    && var code := ParseBlockNumber(readInt, r.decoded.value).value;
       if code == EARLIEST then height == 1 else code == height && height >= 1
  }

  lemma OneBlockParam(r: Incoming, doc: Json)
    requires LongEnough(r) && HasBlockParam(r, doc)
    ensures var i := BlockNumberParamIndex(r.decoded.value.name);
            i.Some? && i.value < |r.decoded.value.params.value| && BlockAt(r.decoded.value.name, i.value)
            && doc == r.decoded.value.params.value[i.value]
  {
    var params := r.decoded.value.params.value;
    var i :| 0 <= i < |params| && BlockAt(r.decoded.value.name, i) && params[i] == doc;
    BlockAtIsIndex(r.decoded.value.name, i);
  }

  lemma BlockParamExists(r: Incoming)
    requires LongEnough(r) && r.decoded.Some? && BlockNumberParamIndex(r.decoded.value.name).Some?
    ensures exists doc :: HasBlockParam(r, doc)
  {
    var i := BlockNumberParamIndex(r.decoded.value.name).value;
    BlockAtIsIndex(r.decoded.value.name, i);
    assert HasBlockParam(r, r.decoded.value.params.value[i]);
  }

  /** What a request asks for by its block parameter is what its code says. */
  lemma CodesSayTheSame(readInt: IntReader, r: Incoming)
    requires LongEnough(r)
    ensures AsksForLatest(readInt, r) <==>
            (r.decoded.Some? && RequiresNoHistory(r.decoded.value.name)) || CodedLatest(readInt, r)
    ensures forall height :: AsksForHeight(readInt, r, height) <==> CodedHeight(readInt, r, height)
  {
    if r.decoded.Some? && BlockNumberParamIndex(r.decoded.value.name).Some? {
      BlockParamExists(r);
      var doc :| HasBlockParam(r, doc);
      OneBlockParam(r, doc);
      CodeKeepsMeaning(readInt, r.decoded.value, BlockNumberParamIndex(r.decoded.value.name).value);
      forall other | HasBlockParam(r, other) ensures other == doc {
        OneBlockParam(r, other);
      }
    } else {
      forall doc ensures !HasBlockParam(r, doc) {
        if HasBlockParam(r, doc) {
          OneBlockParam(r, doc);
          assert false;
        }
      }
    }
  }

  /** The shard that ends at `end` contains the height: it is the first to end there or later. */
  ghost predicate Contains(im: IntervalUrlMap, end: nat, height: nat) {
    && end in im.urlByEndHeight && height <= end
    && forall e :: e in im.urlByEndHeight && e < end ==> e < height
  }

  ghost predicate PruningApplies(c: RoutingConfig, readInt: IntReader, r: Incoming)
    requires LongEnough(r)
  {
    c.heightBased && r.host in c.pruning && AsksForLatest(readInt, r)
  }

  ghost predicate ShardApplies(c: RoutingConfig, readInt: IntReader, r: Incoming, end: nat)
    requires LongEnough(r)
  {
    && c.sharded && r.host in c.shards
    && exists height :: AsksForHeight(readInt, r, height) && Contains(c.shards[r.host], end, height)
  }

  /** Where a request of a known host belongs. */
  ghost predicate Rule(c: RoutingConfig, readInt: IntReader, r: Incoming, m: Metadata)
    requires LongEnough(r) && r.host in c.defaults
  {
    match m.backend
    case PruningBackend =>
      PruningApplies(c, readInt, r) && m.route == c.pruning[r.host] && m.shardEndHeight == 0
    case ShardBackend =>
      ShardApplies(c, readInt, r, m.shardEndHeight) && m.route == c.shards[r.host].urlByEndHeight[m.shardEndHeight]
    case DefaultBackend =>
      && !PruningApplies(c, readInt, r) && (forall end :: !ShardApplies(c, readInt, r, end))
      && m.route == c.defaults[r.host] && m.shardEndHeight == 0
  }

  /** What validation demands: every pruning host has a default backend. The shard map comes from its parser. */
  ghost predicate Validated(c: RoutingConfig) {
    c.pruning.Keys <= c.defaults.Keys && AllValid(c.shards)
  }

  /** An accepted shard map text gives a shard map that the rule speaks of. */
  lemma AcceptedShardsAreValid(readUrl: ShardConfig.UrlReader, raw: string)
    requires ShardConfig.ReadShardMap(readUrl, raw).1.None?
    ensures AllValid(ShardConfig.ReadShardMap(readUrl, raw).0)
  {
    if raw != "" {
      var parsed := ShardConfig.ReadShardMap(readUrl, raw).0;
      forall host | host in parsed ensures Valid(parsed[host]) {
        ShardRoundTrip.AcceptedIsProper(readUrl, raw, host);
      }
    }
  }

  function To(m: Metadata): Choice { Choice(Some(ReverseProxy(m.route)), m, true) }

  const NOT_FOUND: Choice := Choice(None, Metadata(DefaultBackend, "", 0), false)

  lemma BuiltValid(p: Router, c: RoutingConfig)
    requires BuiltFrom(p, c) && AllValid(c.shards)
    ensures ValidRouter(p)
  {
  }

  // ---------------------------------------------------------------------- refinement

  /** A request never asks both for the newest state and for a height, nor for two heights. */
  lemma AsksForOneThing(readInt: IntReader, r: Incoming, height: nat)
    requires LongEnough(r) && AsksForHeight(readInt, r, height)
    ensures !AsksForLatest(readInt, r)
    ensures forall h :: AsksForHeight(readInt, r, h) ==> h == height
  {
    CodesSayTheSame(readInt, r);
    IndexedMethodsAreTheListed(r.decoded.value.name);
    if RequiresNoHistory(r.decoded.value.name) {
      NoHistoryMethodsHaveNoBlockNumber(r.decoded.value.name);
      assert false;
    }
  }

  lemma ContainsIsLookup(im: IntervalUrlMap, height: nat, end: nat)
    requires Valid(im)
    ensures Contains(im, end, height) <==> Lookup(im, height).Some? && Lookup(im, height).value.end == end
    ensures Lookup(im, height).Some? ==>
            Lookup(im, height).value.end in im.urlByEndHeight
            && Lookup(im, height).value.route == im.urlByEndHeight[Lookup(im, height).value.end]
  {
    LookupIsLeast(im, height);
  }

  /** The pruning-or-default layer sends a request to pruning exactly when the rule says so. */
  lemma BaselineRoutes(readInt: IntReader, c: RoutingConfig, p: Router, r: Incoming)
    requires LongEnough(r) && Baseline(p, c)
    ensures ValidRouter(p)
    ensures var choice := ProxyForRequest(readInt, p, r);
            if PruningApplies(c, readInt, r) then choice == To(Metadata(PruningBackend, c.pruning[r.host], 0))
            else if r.host in c.defaults then choice == To(Metadata(DefaultBackend, c.defaults[r.host], 0))
            else choice == NOT_FOUND
  {
    CodesSayTheSame(readInt, r);
    if r.decoded.Some? {
      IndexedMethodsAreTheListed(r.decoded.value.name);
    }
  }

  /** The shard layer changes only default choices, and sends them to the containing shard. */
  lemma ShardLayerRoutes(readInt: IntReader, c: RoutingConfig, p: Router, r: Incoming)
    requires LongEnough(r) && AllValid(c.shards) && c.sharded && BuiltFrom(p, c)
    ensures ValidRouter(p)
    ensures var base := ProxyForRequest(readInt, p.beyond, r);
            var choice := ProxyForRequest(readInt, p, r);
            && (base.metadata.backend != DefaultBackend || !base.found ==> choice == base)
            && (base.metadata.backend == DefaultBackend && base.found ==>
                  && (forall end :: ShardApplies(c, readInt, r, end) ==>
                        choice == To(Metadata(ShardBackend, c.shards[r.host].urlByEndHeight[end], end)))
                  && ((forall end :: !ShardApplies(c, readInt, r, end)) ==> choice == base))
  {
    BuiltValid(p, c);
    CodesSayTheSame(readInt, r);
    var base := ProxyForRequest(readInt, p.beyond, r);
    if base.metadata.backend == DefaultBackend && base.found {
      forall end | ShardApplies(c, readInt, r, end)
        ensures ProxyForRequest(readInt, p, r) == To(Metadata(ShardBackend, c.shards[r.host].urlByEndHeight[end], end))
      {
        var height :| AsksForHeight(readInt, r, height) && Contains(c.shards[r.host], end, height);
        ContainsIsLookup(c.shards[r.host], height, end);
        assert IsRoute(c.shards, c.shards[r.host].urlByEndHeight[end]);
      }
      if (forall end :: !ShardApplies(c, readInt, r, end)) && r.host in c.shards && r.decoded.Some? {
        NoShard(readInt, c, r);
      }
    }
  }

  lemma NoShard(readInt: IntReader, c: RoutingConfig, r: Incoming)
    requires LongEnough(r) && AllValid(c.shards) && c.sharded && r.host in c.shards
    requires forall end :: !ShardApplies(c, readInt, r, end)
    ensures forall height :: AsksForHeight(readInt, r, height) ==> Lookup(c.shards[r.host], height).None?
  {
    forall height | AsksForHeight(readInt, r, height) ensures Lookup(c.shards[r.host], height).None? {
      var found := Lookup(c.shards[r.host], height);
      if found.Some? {
        ContainsIsLookup(c.shards[r.host], height, found.value.end);
        assert ShardApplies(c, readInt, r, found.value.end);
        assert false;
      }
    }
  }

  /** At most one shard applies, and never together with pruning. */
  lemma RuleIsFunctional(c: RoutingConfig, readInt: IntReader, r: Incoming, end: nat)
    requires LongEnough(r) && AllValid(c.shards) && ShardApplies(c, readInt, r, end)
    ensures !PruningApplies(c, readInt, r)
    ensures forall e :: ShardApplies(c, readInt, r, e) ==> e == end
  {
    var height :| AsksForHeight(readInt, r, height) && Contains(c.shards[r.host], end, height);
    AsksForOneThing(readInt, r, height);
    forall e | ShardApplies(c, readInt, r, e) ensures e == end {
      var h :| AsksForHeight(readInt, r, h) && Contains(c.shards[r.host], e, h);
      ContainsIsLookup(c.shards[r.host], height, end);
      ContainsIsLookup(c.shards[r.host], height, e);
    }
  }

  /** The choices of the composed router, case by case. */
  ghost predicate Destined(c: RoutingConfig, readInt: IntReader, r: Incoming, choice: Choice)
    requires LongEnough(r)
  {
    if PruningApplies(c, readInt, r) then choice == To(Metadata(PruningBackend, c.pruning[r.host], 0))
    else if r.host !in c.defaults then choice == NOT_FOUND
    else
      && (forall end :: ShardApplies(c, readInt, r, end) ==>
            choice == To(Metadata(ShardBackend, c.shards[r.host].urlByEndHeight[end], end)))
      && ((forall end :: !ShardApplies(c, readInt, r, end)) ==>
            choice == To(Metadata(DefaultBackend, c.defaults[r.host], 0)))
  }

  lemma Destinations(readInt: IntReader, c: RoutingConfig, p: Router, r: Incoming)
    requires LongEnough(r) && AllValid(c.shards) && BuiltFrom(p, c)
    ensures ValidRouter(p) && Destined(c, readInt, r, ProxyForRequest(readInt, p, r))
  {
    BuiltValid(p, c);
    if c.sharded {
      BaselineRoutes(readInt, c, p.beyond, r);
      ShardLayerRoutes(readInt, c, p, r);
    } else {
      BaselineRoutes(readInt, c, p, r);
    }
  }

  /** The rule names one destination, and it is this one. */
  lemma RuleDecides(c: RoutingConfig, readInt: IntReader, r: Incoming, choice: Choice, m: Metadata)
    requires LongEnough(r) && AllValid(c.shards) && r.host in c.defaults && Destined(c, readInt, r, choice)
    ensures choice == To(m) <==> Rule(c, readInt, r, m)
    ensures choice == To(choice.metadata)
  {
    if end :| ShardApplies(c, readInt, r, end) {
      RuleIsFunctional(c, readInt, r, end);
      ShardDecides(c, readInt, r, end, m);
    }
  }

  lemma ShardDecides(c: RoutingConfig, readInt: IntReader, r: Incoming, end: nat, m: Metadata)
    requires LongEnough(r) && r.host in c.defaults && ShardApplies(c, readInt, r, end) && !PruningApplies(c, readInt, r)
    requires forall e :: ShardApplies(c, readInt, r, e) ==> e == end
    ensures Rule(c, readInt, r, m) <==> m == Metadata(ShardBackend, c.shards[r.host].urlByEndHeight[end], end)
  {
  }

  /** The composed router and the rule agree: a request of a known host gets exactly the backend the
      rule names, through a proxy to the route in the metadata; any other host is not found. */
  lemma RoutingRefinement(readInt: IntReader, c: RoutingConfig, p: Router, r: Incoming, m: Metadata)
    requires LongEnough(r) && Validated(c) && BuiltFrom(p, c)
    ensures ValidRouter(p)
    ensures r.host in c.defaults ==> (ProxyForRequest(readInt, p, r) == To(m) <==> Rule(c, readInt, r, m))
    ensures r.host !in c.defaults ==> ProxyForRequest(readInt, p, r) == NOT_FOUND
  {
    Destinations(readInt, c, p, r);
    var choice := ProxyForRequest(readInt, p, r);
    if r.host in c.defaults {
      RuleDecides(c, readInt, r, choice, m);
    }
  }

  /** The rule is total: a known host is always served, as the rule says. */
  lemma KnownHostsAreServed(readInt: IntReader, c: RoutingConfig, p: Router, r: Incoming)
    requires LongEnough(r) && Validated(c) && BuiltFrom(p, c) && r.host in c.defaults
    ensures ValidRouter(p)
    ensures var choice := ProxyForRequest(readInt, p, r);
            choice == To(choice.metadata) && Rule(c, readInt, r, choice.metadata)
  {
    Destinations(readInt, c, p, r);
    var choice := ProxyForRequest(readInt, p, r);
    RuleDecides(c, readInt, r, choice, choice.metadata);
  }

  // ------------------------------------------------------------ totality and metadata

  /** A router whose proxies go where its route tables say. */
  ghost predicate Consistent(p: Router) {
    match p
    case HostProxies(_, proxies, targets) =>
      forall h :: h in proxies ==> h in targets && proxies[h].target == targets[h]
    case PruningOrDefault(pruning, fallback) => Consistent(pruning) && Consistent(fallback)
    case ShardProxies(beyond, shards, proxyByUrl) => Consistent(beyond) && RoutesServed(shards, proxyByUrl)
  }

  lemma BuiltConsistent(p: Router, c: RoutingConfig)
    requires BuiltFrom(p, c)
    ensures Consistent(p)
  {
  }

  /** However the routers are nested, a found proxy is never nil and its target is the recorded route. */
  lemma {:induction false} MetadataAgrees(readInt: IntReader, p: Router, r: Incoming)
    requires LongEnough(r) && ValidRouter(p) && Consistent(p)
    ensures var choice := ProxyForRequest(readInt, p, r);
            choice.found ==> choice.proxy == Some(ReverseProxy(choice.metadata.route))
    decreases p
  {
    match p
    case HostProxies(_, _, _) =>
    case PruningOrDefault(pruning, fallback) =>
      MetadataAgrees(readInt, pruning, r);
      MetadataAgrees(readInt, fallback, r);
    case ShardProxies(beyond, shards, _) =>
      MetadataAgrees(readInt, beyond, r);
      var choice := ProxyForRequest(readInt, p, r);
      if choice != ProxyForRequest(readInt, beyond, r) {
        LookupIsLeast(shards[r.host], ShardHeight(readInt, r));
        assert IsRoute(shards, choice.metadata.route);
      }
  }

  /** Whatever the configuration, validated or not, the router built from it never returns a nil proxy as
      found, nor one that goes elsewhere than the metadata says. */
  lemma BuiltMetadataAgrees(readInt: IntReader, c: RoutingConfig, p: Router, r: Incoming)
    requires LongEnough(r) && AllValid(c.shards) && BuiltFrom(p, c)
    ensures ValidRouter(p)
    ensures var choice := ProxyForRequest(readInt, p, r);
            choice.found ==> choice.proxy == Some(ReverseProxy(choice.metadata.route))
  {
    BuiltValid(p, c);
    BuiltConsistent(p, c);
    MetadataAgrees(readInt, p, r);
  }

  function ShardHeight(readInt: IntReader, r: Incoming): nat
    requires LongEnough(r)
  {
    if r.decoded.None? then 0
    else
      match ParseBlockNumber(readInt, r.decoded.value)
      case Err(_) => 0
      case Ok(code) => if code == EARLIEST then 1 else if code < 1 then 0 else code
  }

  /** The request that asks for the newest block number. */
  function BlockNumberRequest(host: string): (r: Incoming)
    ensures LongEnough(r) && r.host == host
  {
    Incoming(host, Some(Request("2.0", Number(1.0), "eth_blockNumber", Some([]))))
  }

  ghost predicate FoundIffDefault(readInt: IntReader, c: RoutingConfig, p: Router, r: Incoming)
    requires LongEnough(r) && ValidRouter(p)
  {
    ProxyForRequest(readInt, p, r).found <==> r.host in c.defaults
  }

  /** Every request is served exactly when its host has a default backend, if and only if the
      configuration passes the host check (or does not use the pruning map at all). */
  lemma TotalIffValidated(readInt: IntReader, c: RoutingConfig, p: Router)
    requires BuiltFrom(p, c) && AllValid(c.shards)
    ensures ValidRouter(p)
    ensures (forall r | LongEnough(r) :: FoundIffDefault(readInt, c, p, r))
            <==> (c.heightBased ==> c.pruning.Keys <= c.defaults.Keys)
  {
    BuiltValid(p, c);
    forall r | LongEnough(r)
      ensures FoundIffDefault(readInt, c, p, r) <==> r.host in c.defaults || !PruningApplies(c, readInt, r)
    {
      Destinations(readInt, c, p, r);
    }
    forall host | c.heightBased && host in c.pruning && host !in c.defaults
      ensures !FoundIffDefault(readInt, c, p, BlockNumberRequest(host))
    {
      assert NO_HISTORY_METHODS[13] == "eth_blockNumber";
      assert PruningApplies(c, readInt, BlockNumberRequest(host));
    }
  }

  // --------------------------------------------------------- shards and cacheability

  /** The height of a request sent to a shard lies above the previous end height and not above the
      recorded one. */
  lemma ShardHoldsHeight(readInt: IntReader, c: RoutingConfig, p: Router, r: Incoming)
    requires LongEnough(r) && Validated(c) && BuiltFrom(p, c) && ValidRouter(p)
    requires ProxyForRequest(readInt, p, r).metadata.backend == ShardBackend
    ensures r.host in c.defaults && r.host in c.shards
    ensures exists height, i ::
      && AsksForHeight(readInt, r, height)
      && 0 <= i < |c.shards[r.host].endpoints| && InInterval(c.shards[r.host], i, height)
      && c.shards[r.host].endpoints[i] == ProxyForRequest(readInt, p, r).metadata.shardEndHeight
  {
    var m := ProxyForRequest(readInt, p, r).metadata;
    RoutingRefinement(readInt, c, p, r, m);
    KnownHostsAreServed(readInt, c, p, r);
    var im := c.shards[r.host];
    var height :| AsksForHeight(readInt, r, height) && Contains(im, m.shardEndHeight, height);
    ContainsIsLookup(im, height, m.shardEndHeight);
    ScanFinds(im.endpoints, height);
    var i := Scan(im.endpoints, height);
    assert InInterval(im, i, height);
  }

  /** Among block-number requests the cacheable ones are those that name a height. */
  lemma CacheableIffHeight(readInt: IntReader, r: Incoming)
    requires LongEnough(r) && r.decoded.Some? && HasBlockNumberParam(r.decoded.value.name)
    ensures ServiceCache.IsCacheable(readInt, r.decoded) <==> exists height :: AsksForHeight(readInt, r, height)
  {
    assert r.decoded.value.name != "";
    CodesSayTheSame(readInt, r);
    match ParseBlockNumber(readInt, r.decoded.value)
    case Err(_) =>
    case Ok(code) =>
      if code == EARLIEST {
        assert AsksForHeight(readInt, r, 1);
      } else if code >= 1 {
        assert AsksForHeight(readInt, r, code);
      }
  }

  lemma HeightsComeFromBlockNumbers(readInt: IntReader, r: Incoming, height: nat)
    requires LongEnough(r) && AsksForHeight(readInt, r, height)
    ensures r.decoded.Some? && HasBlockNumberParam(r.decoded.value.name)
  {
    CodesSayTheSame(readInt, r);
    IndexedMethodsAreTheListed(r.decoded.value.name);
  }

  /** Every request sent to a shard is a cacheable block-number request. */
  lemma ShardRequestsAreCacheable(readInt: IntReader, c: RoutingConfig, p: Router, r: Incoming)
    requires LongEnough(r) && Validated(c) && BuiltFrom(p, c) && ValidRouter(p)
    requires ProxyForRequest(readInt, p, r).metadata.backend == ShardBackend
    ensures r.decoded.Some? && HasBlockNumberParam(r.decoded.value.name)
    ensures ServiceCache.IsCacheable(readInt, r.decoded)
  {
    ShardHoldsHeight(readInt, c, p, r);
    var height :| AsksForHeight(readInt, r, height);
    HeightsComeFromBlockNumbers(readInt, r, height);
    CacheableIffHeight(readInt, r);
  }

  /** On a sharded host the shards get exactly the cacheable block-number requests up to the last end height. */
  lemma ShardsGetTheCacheable(readInt: IntReader, c: RoutingConfig, p: Router, r: Incoming)
    requires LongEnough(r) && Validated(c) && BuiltFrom(p, c) && ValidRouter(p)
    requires c.sharded && r.host in c.defaults && r.host in c.shards
    ensures ProxyForRequest(readInt, p, r).metadata.backend == ShardBackend <==>
            && r.decoded.Some? && HasBlockNumberParam(r.decoded.value.name)
            && ServiceCache.IsCacheable(readInt, r.decoded)
            && exists height, end ::
                 AsksForHeight(readInt, r, height) && end in c.shards[r.host].urlByEndHeight && height <= end
  {
    KnownHostsAreServed(readInt, c, p, r);
    if ProxyForRequest(readInt, p, r).metadata.backend == ShardBackend {
      ShardRequestsAreCacheable(readInt, c, p, r);
    }
    forall height, end | AsksForHeight(readInt, r, height) && end in c.shards[r.host].urlByEndHeight && height <= end
      ensures ProxyForRequest(readInt, p, r).metadata.backend == ShardBackend
    {
      AsksForOneThing(readInt, r, height);
      LookupIsLeast(c.shards[r.host], height);
      var shard := Lookup(c.shards[r.host], height).value;
      ContainsIsLookup(c.shards[r.host], height, shard.end);
      assert ShardApplies(c, readInt, r, shard.end);
    }
  }

  /** What becomes of a block parameter, by its meaning: the newest state goes to pruning where the host
      has such a backend, else to the default backend, and is never cached; a height is cacheable
      and goes to the shard that contains it, if there is one; anything else goes to the default
      backend and is never cached. */
  lemma MeaningDecides(readInt: IntReader, c: RoutingConfig, p: Router, r: Incoming, doc: Json)
    requires LongEnough(r) && Validated(c) && BuiltFrom(p, c) && ValidRouter(p)
    requires r.host in c.defaults && HasBlockParam(r, doc)
    ensures var choice := ProxyForRequest(readInt, p, r);
            var toDefault := To(Metadata(DefaultBackend, c.defaults[r.host], 0));
            match MeaningOf(readInt, doc)
            case Newest =>
              && !ServiceCache.IsCacheable(readInt, r.decoded)
              && choice == if c.heightBased && r.host in c.pruning
                           then To(Metadata(PruningBackend, c.pruning[r.host], 0)) else toDefault
            case Height(n) =>
              && ServiceCache.IsCacheable(readInt, r.decoded)
              && choice == if c.sharded && r.host in c.shards && Lookup(c.shards[r.host], n).Some?
                           then To(Metadata(ShardBackend, Lookup(c.shards[r.host], n).value.route,
                                            Lookup(c.shards[r.host], n).value.end))
                           else toDefault
            case Neither => !ServiceCache.IsCacheable(readInt, r.decoded) && choice == toDefault
  {
    Destinations(readInt, c, p, r);
    OneBlockParam(r, doc);
    IndexedMethodsAreTheListed(r.decoded.value.name);
    CacheableIffHeight(readInt, r);
    ThisMeaning(readInt, r, doc);
    if MeaningOf(readInt, doc).Height? {
      HeightDestination(readInt, c, r, MeaningOf(readInt, doc).n, ProxyForRequest(readInt, p, r));
    }
  }

  /** A request asks for what its block parameter means, and for nothing else. */
  lemma ThisMeaning(readInt: IntReader, r: Incoming, doc: Json)
    requires LongEnough(r) && HasBlockParam(r, doc)
    ensures AsksForLatest(readInt, r) <==> MeaningOf(readInt, doc) == Newest
    ensures forall n :: AsksForHeight(readInt, r, n) <==> MeaningOf(readInt, doc) == Height(n)
  {
    OneBlockParam(r, doc);
    IndexedMethodsAreTheListed(r.decoded.value.name);
    forall other | HasBlockParam(r, other) ensures other == doc {
      OneBlockParam(r, other);
    }
    if RequiresNoHistory(r.decoded.value.name) {
      NoHistoryMethodsHaveNoBlockNumber(r.decoded.value.name);
      assert false;
    }
  }

  lemma HeightDestination(readInt: IntReader, c: RoutingConfig, r: Incoming, n: nat, choice: Choice)
    requires LongEnough(r) && AllValid(c.shards) && r.host in c.defaults && AsksForHeight(readInt, r, n)
    requires Destined(c, readInt, r, choice)
    ensures choice == if c.sharded && r.host in c.shards && Lookup(c.shards[r.host], n).Some?
                      then To(Metadata(ShardBackend, Lookup(c.shards[r.host], n).value.route,
                                       Lookup(c.shards[r.host], n).value.end))
                      else To(Metadata(DefaultBackend, c.defaults[r.host], 0))
  {
    AsksForOneThing(readInt, r, n);
    if c.sharded && r.host in c.shards {
      forall end ensures ShardApplies(c, readInt, r, end) <==>
                         Lookup(c.shards[r.host], n).Some? && Lookup(c.shards[r.host], n).value.end == end
      {
        ContainsIsLookup(c.shards[r.host], n, end);
      }
      if Lookup(c.shards[r.host], n).Some? {
        ContainsIsLookup(c.shards[r.host], n, Lookup(c.shards[r.host], n).value.end);
      }
    }
  }

  /** No block-number request sent to pruning is cacheable. */
  lemma PruningRequestsAreNotCacheable(readInt: IntReader, c: RoutingConfig, p: Router, r: Incoming)
    requires LongEnough(r) && Validated(c) && BuiltFrom(p, c) && ValidRouter(p)
    requires ProxyForRequest(readInt, p, r).metadata.backend == PruningBackend
    ensures r.decoded.Some?
    ensures HasBlockNumberParam(r.decoded.value.name) ==> !ServiceCache.IsCacheable(readInt, r.decoded)
  {
    RoutingRefinement(readInt, c, p, r, ProxyForRequest(readInt, p, r).metadata);
    KnownHostsAreServed(readInt, c, p, r);
    assert AsksForLatest(readInt, r);
    if HasBlockNumberParam(r.decoded.value.name) {
      CacheableIffHeight(readInt, r);
      forall height ensures !AsksForHeight(readInt, r, height) {
        if AsksForHeight(readInt, r, height) {
          AsksForOneThing(readInt, r, height);
          assert false;
        }
      }
    }
  }
}
