/**
 The three routers (service/proxy.go, service/shard.go) and how they are composed from the
 configuration. A reverse proxy is represented by the URL it forwards to.
 */
module Proxies {
  import opened Wrappers
  import opened Decode
  import opened IntervalMap

  datatype ReverseProxy = ReverseProxy(target: Url)

  datatype Backend = DefaultBackend | PruningBackend | ShardBackend

  datatype Metadata = Metadata(backend: Backend, route: Url, shardEndHeight: nat)

  /** What a router returns; an absent proxy is nil. */
  datatype Choice = Choice(proxy: Option<ReverseProxy>, metadata: Metadata, found: bool)

  /** An HTTP request as the routers see it: its host and the decoded body in its context. */
  datatype Incoming = Incoming(host: string, decoded: Option<Request>)

  datatype Router =
    | HostProxies(backend: Backend, proxyForHost: map<string, ReverseProxy>, targetUrlForHost: map<string, Url>)
    | PruningOrDefault(pruning: Router, fallback: Router)
    | ShardProxies(beyond: Router, shardsByHost: map<string, IntervalUrlMap>, proxyByUrl: map<Url, ReverseProxy>)

  predicate LongEnough(r: Incoming) { r.decoded.Some? ==> ParamsLongEnough(r.decoded.value) }

  ghost predicate AllValid(shards: map<string, IntervalUrlMap>) {
    forall h :: h in shards ==> Valid(shards[h])
  }

  /** The interval maps inside a router are the product of NewIntervalUrlMap. */
  ghost predicate ValidRouter(p: Router) {
    match p
    case HostProxies(_, _, _) => true
    case PruningOrDefault(pruning, fallback) => ValidRouter(pruning) && ValidRouter(fallback)
    case ShardProxies(beyond, shards, _) => ValidRouter(beyond) && AllValid(shards)
  }

  /** shouldRouteToPruning. */
  predicate ShouldRouteToPruning(code: int) { code in {LATEST, FINALIZED, PENDING, SAFE, EMPTY} }

  function ProxyForRequest(readInt: IntReader, p: Router, r: Incoming): Choice
    requires LongEnough(r) && ValidRouter(p)
    decreases p
  {
    match p
    case HostProxies(backend, proxies, targets) =>
      Choice(if r.host in proxies then Some(proxies[r.host]) else None,
             Metadata(backend, if r.host in targets then targets[r.host] else "", 0),
             r.host in proxies)

    case PruningOrDefault(pruning, fallback) =>
      if !ProxyForRequest(readInt, pruning, r).found then ProxyForRequest(readInt, fallback, r)
      else if r.decoded.None? then ProxyForRequest(readInt, fallback, r)
      else if RequiresNoHistory(r.decoded.value.name) then ProxyForRequest(readInt, pruning, r)
      else if !HasBlockNumberParam(r.decoded.value.name) then ProxyForRequest(readInt, fallback, r)
      else
        (match ParseBlockNumber(readInt, r.decoded.value)
         case Err(_) => ProxyForRequest(readInt, fallback, r)
         case Ok(height) =>
           if ShouldRouteToPruning(height) then ProxyForRequest(readInt, pruning, r)
           else ProxyForRequest(readInt, fallback, r))

    case ShardProxies(beyond, shards, proxyByUrl) =>
      var base := ProxyForRequest(readInt, beyond, r);
      if r.host !in shards then base
      else if base.metadata.backend != DefaultBackend || !base.found then base
      else if r.decoded.None? then base
      else
        match ParseBlockNumber(readInt, r.decoded.value)
        case Err(_) => base
        case Ok(parsed) =>
          var height := if parsed == EARLIEST then 1 else parsed;
          if height < 1 then base
          else
            match Lookup(shards[r.host], height)
            case None => base
            case Some(shard) =>
              Choice(if shard.route in proxyByUrl then Some(proxyByUrl[shard.route]) else None,
                     Metadata(ShardBackend, shard.route, shard.end), true)
  }

  // ------------------------------------------------------------------ construction

  datatype RoutingConfig = RoutingConfig(
    heightBased: bool, sharded: bool,
    defaults: map<string, Url>, pruning: map<string, Url>, shards: map<string, IntervalUrlMap>)

  function ProxiesOf(hosts: map<string, Url>): map<string, ReverseProxy> {
    map h | h in hosts :: ReverseProxy(hosts[h])
  }

  /** Every route that occurs in some shard. */
  ghost predicate IsRoute(shards: map<string, IntervalUrlMap>, url: Url) {
    exists h, e :: h in shards && e in shards[h].urlByEndHeight && shards[h].urlByEndHeight[e] == url
  }

  ghost predicate RoutesServed(shards: map<string, IntervalUrlMap>, proxyByUrl: map<Url, ReverseProxy>) {
    && (forall url :: url in proxyByUrl <==> IsRoute(shards, url))
    && (forall url :: url in proxyByUrl ==> proxyByUrl[url] == ReverseProxy(url))
  }

  ghost predicate Hosts(p: Router, backend: Backend, hosts: map<string, Url>) {
    p == HostProxies(backend, ProxiesOf(hosts), hosts)
  }

  ghost predicate Baseline(p: Router, c: RoutingConfig) {
    if c.heightBased then
      p.PruningOrDefault? && Hosts(p.pruning, PruningBackend, c.pruning) && Hosts(p.fallback, DefaultBackend, c.defaults)
    else
      Hosts(p, DefaultBackend, c.defaults)
  }

  /** The router a configuration asks for. */
  ghost predicate BuiltFrom(p: Router, c: RoutingConfig) {
    if c.sharded then
      && p.ShardProxies? && Baseline(p.beyond, c)
      && p.shardsByHost == c.shards && RoutesServed(c.shards, p.proxyByUrl)
    else
      Baseline(p, c)
  }

  method NewHostProxies(backend: Backend, hosts: map<string, Url>) returns (p: Router)
    ensures Hosts(p, backend, hosts)
  {
    var proxies: map<string, ReverseProxy> := map[];
    var rest := hosts.Keys;
    while rest != {}
      invariant rest <= hosts.Keys && proxies.Keys == hosts.Keys - rest
      invariant forall h :: h in proxies ==> proxies[h] == ReverseProxy(hosts[h])
      decreases rest
    {
      var host :| host in rest;
      proxies := proxies[host := ReverseProxy(hosts[host])];
      rest := rest - {host};
    }
    assert proxies == ProxiesOf(hosts);
    return HostProxies(backend, proxies, hosts);
  }

  /** The inner loop: one reverse proxy for every route of one host. */
  method AddRoutes(urls: map<nat, Url>, before: map<Url, ReverseProxy>) returns (proxies: map<Url, ReverseProxy>)
    requires forall url :: url in before ==> before[url] == ReverseProxy(url)
    ensures forall url :: url in proxies <==> url in before || exists e :: e in urls && urls[e] == url
    ensures forall url :: url in proxies ==> proxies[url] == ReverseProxy(url)
  {
    proxies := before;
    var rest := urls.Keys;
    while rest != {}
      invariant rest <= urls.Keys
      invariant forall url :: url in proxies <==> url in before || exists e :: e in urls && e !in rest && urls[e] == url
      invariant forall url :: url in proxies ==> proxies[url] == ReverseProxy(url)
      decreases rest
    {
      var end :| end in rest;
      proxies := proxies[urls[end] := ReverseProxy(urls[end])];
      rest := rest - {end};
    }
  }

  method NewShardProxies(shards: map<string, IntervalUrlMap>, beyond: Router) returns (p: Router)
    ensures p.ShardProxies? && p.beyond == beyond && p.shardsByHost == shards && RoutesServed(shards, p.proxyByUrl)
  {
    var proxies: map<Url, ReverseProxy> := map[];
    var rest := shards.Keys;
    while rest != {}
      invariant rest <= shards.Keys
      invariant forall url :: url in proxies <==>
        exists h, e :: h in shards && h !in rest && e in shards[h].urlByEndHeight && shards[h].urlByEndHeight[e] == url
      invariant forall url :: url in proxies ==> proxies[url] == ReverseProxy(url)
      decreases rest
    {
      var host :| host in rest;
      proxies := AddRoutes(shards[host].urlByEndHeight, proxies);
      rest := rest - {host};
    }
    return ShardProxies(beyond, shards, proxies);
  }

  method NewProxies(c: RoutingConfig) returns (p: Router)
    ensures BuiltFrom(p, c)
  {
    var baseline;
    if c.heightBased {
      var pruning := NewHostProxies(PruningBackend, c.pruning);
      var fallback := NewHostProxies(DefaultBackend, c.defaults);
      baseline := PruningOrDefault(pruning, fallback);
    } else {
      baseline := NewHostProxies(DefaultBackend, c.defaults);
    }
    if c.sharded {
      p := NewShardProxies(c.shards, baseline);
    } else {
      p := baseline;
    }
  }

  /** validateDefaultHostMapContainsHosts: the error names a host without a default backend. */
  method ValidateDefaultContains(defaults: map<string, Url>, hosts: map<string, Url>) returns (missing: Option<string>)
    ensures missing.None? <==> hosts.Keys <= defaults.Keys
    ensures missing.Some? ==> missing.value in hosts && missing.value !in defaults
  {
    var rest := hosts.Keys;
    while rest != {}
      invariant rest <= hosts.Keys && hosts.Keys - rest <= defaults.Keys
      decreases rest
    {
      var host :| host in rest;
      if host !in defaults {
        return Some(host);
      }
      rest := rest - {host};
    }
    return None;
  }
}
