/**
 The shard map and host map encodings of the environment (config/config.go):
 HOST_A>END_A1|ROUTE_A1|END_A2|ROUTE_A2,HOST_B>END_B1|ROUTE_B1 and HOST_A>URL_A,HOST_B>URL_B.
 */
module ShardConfig {
  import opened Wrappers
  import opened Text
  import opened IntervalMap

  /** url.Parse followed by String, left abstract. */
  type UrlReader = string -> Option<Url>

  /** The definition of one host. */
  datatype Definition = Definition(host: string, shards: seq<Shard>)

  datatype ConfigError =
    | BadDefinition(entry: string)
    | OddSequence(host: string)
    | BadHeight(host: string, text: string)
    | DuplicateHeight(host: string, end: nat)
    | UnorderedHeight(host: string, end: nat)
    | BadRoute(host: string, text: string)
    | EmptyHostMap
    | BadEntry(entry: string)

  function RouteMap(shards: seq<Shard>): map<nat, Url> {
    if shards == [] then map[]
    else RouteMap(shards[..|shards| - 1])[shards[|shards| - 1].end := shards[|shards| - 1].route]
  }

  // ------------------------------------------------------------ reading one host

  /** One end height and its route, after shards with these end heights, the last of them max. */
  function ReadPair(readUrl: UrlReader, host: string, height: string, url: string, known: map<nat, Url>, max: nat):
      Result<Shard, ConfigError>
  {
    match ParseUint64(height)
    case None => Err(BadHeight(host, height))
    case Some(end) =>
      if end == 0 then Err(BadHeight(host, height))
      else if end in known then Err(DuplicateHeight(host, end))
      else if end < max then Err(UnorderedHeight(host, end))
      else
        match readUrl(url)
        case None => Err(BadRoute(host, url))
        case Some(route) => if route == "" then Err(BadRoute(host, url)) else Ok(Shard(end, route))
  }

  /** The rest of an <end-height>|<backend-route> sequence after some shards have been read. */
  function ReadShards(readUrl: UrlReader, host: string, values: seq<string>, done: seq<Shard>, max: nat):
      Result<seq<Shard>, ConfigError>
    requires |values| % 2 == 0
    decreases |values|
  {
    if values == [] then Ok(done)
    else
      match ReadPair(readUrl, host, values[0], values[1], RouteMap(done), max)
      case Err(e) => Err(e)
      case Ok(shard) => ReadShards(readUrl, host, values[2..], done + [shard], shard.end)
  }

  function ReadDefinition(readUrl: UrlReader, entry: string): Result<Definition, ConfigError> {
    var pieces := Split(entry, '>');
    if |pieces| != 2 then Err(BadDefinition(entry))
    else
      var values := Split(pieces[1], '|');
      if |values| % 2 != 0 then Err(OddSequence(pieces[0]))
      else
        match ReadShards(readUrl, pieces[0], values, [], 0)
        case Err(e) => Err(e)
        case Ok(shards) => Ok(Definition(pieces[0], shards))
  }

  /** The shards of an accepted definition: end heights that are nonzero, fit 64 bits and strictly
      increase, each with a route. */
  ghost predicate GoodShards(shards: seq<Shard>) {
    && (forall i :: 0 <= i < |shards| ==> 0 < shards[i].end <= UINT64_MAX && shards[i].route != "")
    && (forall i, j :: 0 <= i < j < |shards| ==> shards[i].end < shards[j].end)
  }

  function Ends(shards: seq<Shard>): (ends: seq<nat>)
    ensures |ends| == |shards| && forall i :: 0 <= i < |ends| ==> ends[i] == shards[i].end
  {
    seq(|shards|, i requires 0 <= i < |shards| => shards[i].end)
  }

  lemma {:induction false} RouteMapKeys(shards: seq<Shard>)
    ensures forall e :: e in RouteMap(shards) <==> exists i :: 0 <= i < |shards| && shards[i].end == e
  {
    if shards != [] {
      var n := |shards| - 1;
      RouteMapKeys(shards[..n]);
      forall e | e in RouteMap(shards) ensures exists i :: 0 <= i < |shards| && shards[i].end == e {
        if e in RouteMap(shards[..n]) {
          var i :| 0 <= i < n && shards[..n][i].end == e;
          assert shards[i].end == e;
        } else {
          assert shards[n].end == e;
        }
      }
      forall i | 0 <= i < |shards| ensures shards[i].end in RouteMap(shards) {
        if i < n {
          assert shards[..n][i].end in RouteMap(shards[..n]);
        }
      }
    }
  }

  lemma RouteMapAppend(done: seq<Shard>, shard: Shard)
    ensures RouteMap(done + [shard]) == RouteMap(done)[shard.end := shard.route]
  {
    assert (done + [shard])[..|done|] == done;
  }

  /** Every route stays under its own end height. */
  lemma {:induction false} RouteMapRoutes(shards: seq<Shard>, i: nat)
    requires GoodShards(shards) && i < |shards|
    ensures shards[i].end in RouteMap(shards) && RouteMap(shards)[shards[i].end] == shards[i].route
  {
    var n := |shards| - 1;
    if i < n {
      assert GoodShards(shards[..n]);
      RouteMapRoutes(shards[..n], i);
    }
  }

  /** The interval map of a good list of shards. */
  function OfShards(shards: seq<Shard>): IntervalUrlMap { IntervalUrlMap(RouteMap(shards), Ends(shards)) }

  lemma OfShardsValid(shards: seq<Shard>)
    requires GoodShards(shards)
    ensures Valid(OfShards(shards))
  {
    RouteMapKeys(shards);
    var im := OfShards(shards);
    forall e ensures e in im.endpoints <==> e in im.urlByEndHeight {
      if e in im.endpoints {
        var i :| 0 <= i < |im.endpoints| && im.endpoints[i] == e;
        assert shards[i].end == e;
      }
      if e in im.urlByEndHeight {
        var i :| 0 <= i < |shards| && shards[i].end == e;
        assert im.endpoints[i] == e;
      }
    }
  }

  lemma ValidIsOfShards(im: IntervalUrlMap, shards: seq<Shard>)
    requires Valid(im) && GoodShards(shards) && im.urlByEndHeight == RouteMap(shards)
    ensures im == OfShards(shards)
  {
    OfShardsValid(shards);
    IncreasingUnique(im.endpoints, OfShards(shards).endpoints);
  }

  predicate Max(done: seq<Shard>, max: nat) {
    if done == [] then max == 0 else max == done[|done| - 1].end
  }

  lemma GoodShardsAppend(done: seq<Shard>, max: nat, shard: Shard)
    requires GoodShards(done) && Max(done, max)
    requires 0 < shard.end <= UINT64_MAX && shard.route != "" && max <= shard.end && shard.end !in RouteMap(done)
    ensures GoodShards(done + [shard])
  {
    RouteMapKeys(done);
    if done != [] {
      assert done[|done| - 1].end in RouteMap(done);
    }
  }

  /** Only good shards are ever accepted, and shards once read stay. */
  lemma {:induction false} ReadShardsGood(readUrl: UrlReader, host: string, values: seq<string>, done: seq<Shard>, max: nat)
    requires |values| % 2 == 0 && GoodShards(done) && Max(done, max)
    requires ReadShards(readUrl, host, values, done, max).Ok?
    ensures var shards := ReadShards(readUrl, host, values, done, max).value;
            GoodShards(shards) && |shards| == |done| + |values| / 2 && done <= shards
    decreases |values|
  {
    if values != [] {
      var shard := Shard(ParseUint64(values[0]).value, readUrl(values[1]).value);
      GoodShardsAppend(done, max, shard);
      ReadShardsGood(readUrl, host, values[2..], done + [shard], shard.end);
    }
  }

  lemma ReadDefinitionGood(readUrl: UrlReader, entry: string)
    requires ReadDefinition(readUrl, entry).Ok?
    ensures var d := ReadDefinition(readUrl, entry).value;
            GoodShards(d.shards) && |d.shards| >= 1 && d.host == Split(entry, '>')[0]
  {
    var pieces := Split(entry, '>');
    ReadShardsGood(readUrl, pieces[0], Split(pieces[1], '|'), [], 0);
  }

  /** The values spell these shards: a numeral and a URL for each, in order. */
  ghost predicate Spells(readUrl: UrlReader, values: seq<string>, shards: seq<Shard>) {
    && |values| == 2 * |shards|
    && forall i :: 0 <= i < |shards| ==> SpellsOne(readUrl, values[2 * i], values[2 * i + 1], shards[i])
  }

  predicate SpellsOne(readUrl: UrlReader, end: string, route: string, shard: Shard) {
    ParseUint64(end) == Some(shard.end) && readUrl(route) == Some(shard.route)
  }

  lemma SpellsRest(readUrl: UrlReader, values: seq<string>, shards: seq<Shard>)
    requires |values| >= 2 && shards != []
    ensures Spells(readUrl, values, shards) <==>
            SpellsOne(readUrl, values[0], values[1], shards[0]) && Spells(readUrl, values[2..], shards[1..])
  {
    forall i ensures 0 < i < |shards| && |values| == 2 * |shards| ==>
                     values[2 * i] == values[2..][2 * (i - 1)] && values[2 * i + 1] == values[2..][2 * (i - 1) + 1]
                     && shards[i] == shards[1..][i - 1]
    {
    }
    if Spells(readUrl, values, shards) {
      forall i | 0 <= i < |shards[1..]|
        ensures SpellsOne(readUrl, values[2..][2 * i], values[2..][2 * i + 1], shards[1..][i])
      {
        assert SpellsOne(readUrl, values[2 * (i + 1)], values[2 * (i + 1) + 1], shards[i + 1]);
      }
    }
    if SpellsOne(readUrl, values[0], values[1], shards[0]) && Spells(readUrl, values[2..], shards[1..]) {
      forall i | 0 <= i < |shards|
        ensures SpellsOne(readUrl, values[2 * i], values[2 * i + 1], shards[i])
      {
        if i > 0 {
          assert SpellsOne(readUrl, values[2..][2 * (i - 1)], values[2..][2 * (i - 1) + 1], shards[1..][i - 1]);
        }
      }
    }
  }

  /** A sequence of values is accepted exactly if it spells good shards, and then it yields these. */
  lemma {:induction false} ReadShardsExactly(readUrl: UrlReader, host: string, values: seq<string>,
                                             done: seq<Shard>, max: nat, shards: seq<Shard>)
    requires |values| % 2 == 0 && GoodShards(done) && Max(done, max)
    ensures ReadShards(readUrl, host, values, done, max) == Ok(done + shards) <==>
            Spells(readUrl, values, shards) && GoodShards(done + shards)
    decreases |values|
  {
    if values == [] || shards == [] {
      ExactlyNone(readUrl, host, values, done, max, shards);
    } else {
      var s := shards[0];
      if SpellsOne(readUrl, values[0], values[1], s) && CanFollow(done, max, s) {
        GoodShardsAppend(done, max, s);
        assert done + [s] + shards[1..] == done + shards;
        ReadShardsExactly(readUrl, host, values[2..], done + [s], s.end, shards[1..]);
      }
      ExactlyFirst(readUrl, host, values, done, max, shards);
    }
  }

  lemma ExactlyNone(readUrl: UrlReader, host: string, values: seq<string>, done: seq<Shard>, max: nat, shards: seq<Shard>)
    requires |values| % 2 == 0 && GoodShards(done) && Max(done, max) && (values == [] || shards == [])
    ensures ReadShards(readUrl, host, values, done, max) == Ok(done + shards) <==>
            Spells(readUrl, values, shards) && GoodShards(done + shards)
  {
    if ReadShards(readUrl, host, values, done, max).Ok? {
      ReadShardsGood(readUrl, host, values, done, max);
    }
    assert shards == [] ==> done + shards == done;
  }

  /** The step of the induction: the first pair of values spells the first shard. */
  lemma ExactlyFirst(readUrl: UrlReader, host: string, values: seq<string>, done: seq<Shard>, max: nat, shards: seq<Shard>)
    requires |values| % 2 == 0 && values != [] && shards != [] && GoodShards(done) && Max(done, max)
    requires SpellsOne(readUrl, values[0], values[1], shards[0]) && CanFollow(done, max, shards[0]) ==>
      (ReadShards(readUrl, host, values[2..], done + [shards[0]], shards[0].end) == Ok(done + shards) <==>
         Spells(readUrl, values[2..], shards[1..]) && GoodShards(done + shards))
    ensures ReadShards(readUrl, host, values, done, max) == Ok(done + shards) <==>
            Spells(readUrl, values, shards) && GoodShards(done + shards)
  {
    SpellsRest(readUrl, values, shards);
    FirstShard(readUrl, host, values, done, max, shards);
    if SpellsOne(readUrl, values[0], values[1], shards[0]) && CanFollow(done, max, shards[0]) {
      ReadOneShard(readUrl, host, values, done, max, shards[0]);
    }
  }

  lemma ReadOneShard(readUrl: UrlReader, host: string, values: seq<string>, done: seq<Shard>, max: nat, s: Shard)
    requires |values| % 2 == 0 && values != []
    requires SpellsOne(readUrl, values[0], values[1], s) && CanFollow(done, max, s)
    ensures ReadShards(readUrl, host, values, done, max) == ReadShards(readUrl, host, values[2..], done + [s], s.end)
  {
  }

  /** The shard passes the checks of the parser after these. */
  predicate CanFollow(done: seq<Shard>, max: nat, s: Shard) {
    s.end != 0 && s.end !in RouteMap(done) && s.end >= max && s.route != ""
  }

  lemma FirstShard(readUrl: UrlReader, host: string, values: seq<string>, done: seq<Shard>, max: nat, shards: seq<Shard>)
    requires |values| % 2 == 0 && values != [] && shards != [] && GoodShards(done) && Max(done, max)
    ensures GoodShards(done + shards) ==> CanFollow(done, max, shards[0])
    ensures ReadShards(readUrl, host, values, done, max) == Ok(done + shards) ==>
      SpellsOne(readUrl, values[0], values[1], shards[0]) && CanFollow(done, max, shards[0])
  {
    RouteMapKeys(done);
    var all := done + shards;
    assert all[|done|] == shards[0] && forall i :: 0 <= i < |done| ==> all[i] == done[i];
    if ReadShards(readUrl, host, values, done, max).Ok? {
      var s := Shard(ParseUint64(values[0]).value, readUrl(values[1]).value);
      GoodShardsAppend(done, max, s);
      ReadShardsGood(readUrl, host, values[2..], done + [s], s.end);
      assert done + [s] <= all ==> all[|done|] == s;
    }
  }

  /** Why a pair of values cannot follow the shards read so far. */
  ghost predicate Refused(readUrl: UrlReader, host: string, end: string, route: string, shards: seq<Shard>, e: ConfigError) {
    match e
    case BadHeight(h, text) => h == host && text == end && (ParseUint64(end) == None || ParseUint64(end) == Some(0))
    case DuplicateHeight(h, n) =>
      h == host && ParseUint64(end) == Some(n) && exists j :: 0 <= j < |shards| && shards[j].end == n
    case UnorderedHeight(h, n) =>
      && h == host && ParseUint64(end) == Some(n) && shards != [] && n < shards[|shards| - 1].end
      && forall j :: 0 <= j < |shards| ==> shards[j].end != n
    case BadRoute(h, text) =>
      && h == host && text == route && (readUrl(route) == None || readUrl(route) == Some(""))
      && ParseUint64(end).Some? && forall j :: 0 <= j < |shards| ==> shards[j].end < ParseUint64(end).value
    case _ => false
  }

  /** The first k pairs spell good shards, and the next pair is refused. */
  ghost predicate StopsAt(readUrl: UrlReader, host: string, values: seq<string>, k: nat, shards: seq<Shard>, e: ConfigError) {
    && 2 * k + 1 < |values| && Spells(readUrl, values[..2 * k], shards) && GoodShards(shards)
    && Refused(readUrl, host, values[2 * k], values[2 * k + 1], shards, e)
  }

  lemma SpellsOneMore(readUrl: UrlReader, values: seq<string>, k: nat, done: seq<Shard>, s: Shard)
    requires 2 * k + 2 <= |values| && Spells(readUrl, values[..2 * k], done)
    requires SpellsOne(readUrl, values[2 * k], values[2 * k + 1], s)
    ensures Spells(readUrl, values[..2 * (k + 1)], done + [s])
  {
    var all, longer := done + [s], values[..2 * (k + 1)];
    forall i | 0 <= i < |all| ensures SpellsOne(readUrl, longer[2 * i], longer[2 * i + 1], all[i]) {
      if i < k {
        assert SpellsOne(readUrl, values[..2 * k][2 * i], values[..2 * k][2 * i + 1], done[i]);
      }
    }
  }

  /** A refused pair stops the reading. */
  lemma RefusedHere(readUrl: UrlReader, host: string, values: seq<string>, done: seq<Shard>, max: nat, e: ConfigError)
    requires |values| % 2 == 0 && values != [] && GoodShards(done) && Max(done, max)
    requires ReadShards(readUrl, host, values, done, max) == Err(e)
    ensures Refused(readUrl, host, values[0], values[1], done, e) ||
            (ParseUint64(values[0]).Some? && readUrl(values[1]).Some?
             && var s := Shard(ParseUint64(values[0]).value, readUrl(values[1]).value);
                CanFollow(done, max, s) && ReadShards(readUrl, host, values[2..], done + [s], s.end) == Err(e))
  {
    RouteMapKeys(done);
  }

  lemma NextPair(values: seq<string>, k: nat)
    requires |values| % 2 == 0 && 2 * k < |values|
    ensures 2 * k + 2 <= |values|
    ensures values[2 * k..][0] == values[2 * k] && values[2 * k..][1] == values[2 * k + 1]
    ensures values[2 * k..][2..] == values[2 * (k + 1)..]
  {
  }

  /** A sequence of values is rejected with the error of the first pair that cannot follow. */
  lemma {:induction false} FirstError(readUrl: UrlReader, host: string, values: seq<string>, k: nat,
                                      done: seq<Shard>, max: nat, e: ConfigError)
    requires |values| % 2 == 0 && 2 * k <= |values| && Spells(readUrl, values[..2 * k], done)
    requires GoodShards(done) && Max(done, max)
    requires ReadShards(readUrl, host, values[2 * k..], done, max) == Err(e)
    ensures exists n: nat, shards :: StopsAt(readUrl, host, values, n, shards, e)
    decreases |values| - 2 * k
  {
    var rest := values[2 * k..];
    NextPair(values, k);
    RefusedHere(readUrl, host, rest, done, max, e);
    if Refused(readUrl, host, rest[0], rest[1], done, e) {
      assert StopsAt(readUrl, host, values, k, done, e);
    } else {
      var s := Shard(ParseUint64(rest[0]).value, readUrl(rest[1]).value);
      GoodShardsAppend(done, max, s);
      SpellsOneMore(readUrl, values, k, done, s);
      FirstError(readUrl, host, values, k + 1, done + [s], s.end, e);
    }
  }

  /** An entry is accepted exactly if it is <host>> followed by values that spell at least one shard, with
      good end heights and routes. */
  lemma ReadDefinitionExactly(readUrl: UrlReader, entry: string, d: Definition)
    ensures ReadDefinition(readUrl, entry) == Ok(d) <==>
            var pieces := Split(entry, '>');
            && |pieces| == 2 && pieces[0] == d.host
            && Spells(readUrl, Split(pieces[1], '|'), d.shards) && GoodShards(d.shards)
  {
    var pieces := Split(entry, '>');
    if |pieces| == 2 && |Split(pieces[1], '|')| % 2 == 0 {
      assert [] + d.shards == d.shards;
      ReadShardsExactly(readUrl, pieces[0], Split(pieces[1], '|'), [], 0, d.shards);
    }
  }

  // ---------------------------------------------------------------- reading a map

  /** Definitions are entered in order, so the last one of a host stays; the first error stops the reading. */
  function ReadMap(readUrl: UrlReader, entries: seq<string>, parsed: map<string, IntervalUrlMap>):
      (map<string, IntervalUrlMap>, Option<ConfigError>)
    decreases |entries|
  {
    if entries == [] then (parsed, None)
    else
      match ReadDefinition(readUrl, entries[0])
      case Err(e) => (parsed, Some(e))
      case Ok(d) => ReadMap(readUrl, entries[1..], parsed[d.host := OfShards(d.shards)])
  }

  function ReadShardMap(readUrl: UrlReader, raw: string): (map<string, IntervalUrlMap>, Option<ConfigError>) {
    if raw == "" then (map[], None) else ReadMap(readUrl, Split(raw, ','), map[])
  }

  /** The body of the inner loop: one end height and its route. */
  method ParsePair(readUrl: UrlReader, host: string, height: string, url: string, backend: map<nat, Url>, max: nat)
    returns (r: Result<Shard, ConfigError>)
    ensures r == ReadPair(readUrl, host, height, url, backend, max)
  {
    var end := ParseUint64(height);
    if end.None? || end.value == 0 {
      return Err(BadHeight(host, height));
    }
    if end.value in backend {
      return Err(DuplicateHeight(host, end.value));
    }
    if end.value < max {
      return Err(UnorderedHeight(host, end.value));
    }
    var route := readUrl(url);
    if route.None? || route.value == "" {
      return Err(BadRoute(host, url));
    }
    return Ok(Shard(end.value, route.value));
  }

  /** The inner loop of the parser, over the values of one host. */
  method ParseShards(readUrl: UrlReader, host: string, values: seq<string>)
    returns (backend: map<nat, Url>, err: Option<ConfigError>)
    requires |values| % 2 == 0
    ensures match ReadShards(readUrl, host, values, [], 0)
            case Err(e) => err == Some(e)
            case Ok(shards) => err == None && backend == RouteMap(shards)
  {
    var max: nat := 0;
    backend, err := map[], None;
    ghost var done: seq<Shard> := [];
    var i := 0;
    while i < |values|
      invariant 0 <= i <= |values| && i % 2 == 0
      invariant backend == RouteMap(done) && err == None
      invariant ReadShards(readUrl, host, values, [], 0) == ReadShards(readUrl, host, values[i..], done, max)
      decreases |values| - i
    {
      assert values[i..][0] == values[i] && values[i..][1] == values[i + 1] && values[i..][2..] == values[i + 2..];
      var pair := ParsePair(readUrl, host, values[i], values[i + 1], backend, max);
      if pair.Err? {
        err := Some(pair.error);
        return;
      }
      RouteMapAppend(done, pair.value);
      backend := backend[pair.value.end := pair.value.route];
      max := pair.value.end;
      done := done + [pair.value];
      i := i + 2;
    }
  }

  /** The body of the outer loop: one host and its shards. */
  method ParseDefinition(readUrl: UrlReader, entry: string)
    returns (r: Result<(string, IntervalUrlMap), ConfigError>)
    ensures match ReadDefinition(readUrl, entry)
            case Err(e) => r == Err(e)
            case Ok(d) => r == Ok((d.host, OfShards(d.shards)))
  {
    var pieces := Split(entry, '>');
    if |pieces| != 2 {
      return Err(BadDefinition(entry));
    }
    var values := Split(pieces[1], '|');
    if |values| % 2 != 0 {
      return Err(OddSequence(pieces[0]));
    }
    var backend, e := ParseShards(readUrl, pieces[0], values);
    if e.Some? {
      return Err(e.value);
    }
    var im := NewIntervalUrlMap(backend);
    ReadShardsGood(readUrl, pieces[0], values, [], 0);
    ValidIsOfShards(im, ReadShards(readUrl, pieces[0], values, [], 0).value);
    return Ok((pieces[0], im));
  }

  /** ParseRawShardRoutingBackendHostURLMap. */
  method ParseRawShardMap(readUrl: UrlReader, raw: string)
    returns (parsed: map<string, IntervalUrlMap>, err: Option<ConfigError>)
    ensures (parsed, err) == ReadShardMap(readUrl, raw)
  {
    parsed, err := map[], None;
    if raw == "" {
      return;
    }
    var entries := Split(raw, ',');
    for i := 0 to |entries|
      invariant ReadMap(readUrl, entries, map[]) == ReadMap(readUrl, entries[i..], parsed)
      invariant err == None
    {
      assert entries[i..][0] == entries[i] && entries[i..][1..] == entries[i + 1..];
      var d := ParseDefinition(readUrl, entries[i]);
      if d.Err? {
        err := Some(d.error);
        return;
      }
      parsed := parsed[d.value.0 := d.value.1];
    }
  }

  // ------------------------------------------------------------------- host maps

  function ReadHost(readUrl: UrlReader, entry: string): Option<(string, Url)> {
    var pieces := Split(entry, '>');
    if |pieces| != 2 then None
    else
      match readUrl(pieces[1])
      case None => None
      case Some(url) => Some((pieces[0], url))
  }

  /** The valid entries in order, so the last one of a host stays; invalid entries are passed over. */
  function ReadHosts(readUrl: UrlReader, entries: seq<string>): map<string, Url> {
    if entries == [] then map[]
    else
      var n := |entries| - 1;
      match ReadHost(readUrl, entries[n])
      case None => ReadHosts(readUrl, entries[..n])
      case Some(pair) => ReadHosts(readUrl, entries[..n])[pair.0 := pair.1]
  }

  lemma ReadHostsStep(readUrl: UrlReader, entries: seq<string>, i: nat)
    requires i < |entries|
    ensures ReadHosts(readUrl, entries[..i + 1]) ==
            if ReadHost(readUrl, entries[i]).None? then ReadHosts(readUrl, entries[..i])
            else ReadHosts(readUrl, entries[..i])[ReadHost(readUrl, entries[i]).value.0 := ReadHost(readUrl, entries[i]).value.1]
  {
    assert entries[..i + 1][..i] == entries[..i];
  }

  /** The body of the loop over the entries. */
  method ParseHost(readUrl: UrlReader, entry: string) returns (r: Option<(string, Url)>)
    ensures r == ReadHost(readUrl, entry)
  {
    var pieces := Split(entry, '>');
    if |pieces| != 2 {
      return None;
    }
    var url := readUrl(pieces[1]);
    if url.None? {
      return None;
    }
    return Some((pieces[0], url.value));
  }

  /** The entry is <host>><url> with a URL that can be read. */
  predicate DefinesHost(readUrl: UrlReader, entry: string, host: string, url: Url) {
    var pieces := Split(entry, '>');
    |pieces| == 2 && pieces[0] == host && readUrl(pieces[1]) == Some(url)
  }

  predicate GoodEntry(readUrl: UrlReader, entry: string) {
    var pieces := Split(entry, '>');
    |pieces| == 2 && readUrl(pieces[1]).Some?
  }

  ghost predicate AllGoodEntries(readUrl: UrlReader, entries: seq<string>) {
    forall i :: 0 <= i < |entries| ==> GoodEntry(readUrl, entries[i])
  }

  /** Whether an entry gives a host this URL. */
  type Defines = (string, string, Url) -> bool

  /** Entry i defines the host, and no later entry does. */
  ghost predicate LastFor(defines: Defines, entries: seq<string>, host: string, i: int, url: Url) {
    && 0 <= i < |entries| && defines(entries[i], host, url)
    && forall j, u :: i < j < |entries| ==> !defines(entries[j], host, u)
  }

  ghost predicate DefinedLast(defines: Defines, entries: seq<string>, host: string, url: Url) {
    exists i :: LastFor(defines, entries, host, i, url)
  }

  /** The map has the hosts that some entry defines, each with the URL of its last definition. */
  ghost predicate LastDefinitions(defines: Defines, entries: seq<string>, hosts: map<string, Url>) {
    && (forall h :: h in hosts ==> DefinedLast(defines, entries, h, hosts[h]))
    && (forall i, h, u :: 0 <= i < |entries| && defines(entries[i], h, u) ==> h in hosts)
  }

  ghost predicate HostMapOf(readUrl: UrlReader, entries: seq<string>, hosts: map<string, Url>) {
    LastDefinitions((entry, host, url) => DefinesHost(readUrl, entry, host, url), entries, hosts)
  }

  function Entered(hosts: map<string, Url>, pair: Option<(string, Url)>): map<string, Url> {
    if pair.None? then hosts else hosts[pair.value.0 := pair.value.1]
  }

  /** One more entry replaces the URL of the host it defines and leaves the others. */
  lemma OneMoreEntry(defines: Defines, before: seq<string>, last: string, hosts: map<string, Url>, pair: Option<(string, Url)>)
    requires LastDefinitions(defines, before, hosts)
    requires forall h, u :: defines(last, h, u) <==> pair == Some((h, u))
    ensures LastDefinitions(defines, before + [last], Entered(hosts, pair))
  {
    var entries, all := before + [last], Entered(hosts, pair);
    forall h | h in all ensures DefinedLast(defines, entries, h, all[h]) {
      if pair.Some? && pair.value.0 == h {
        assert LastFor(defines, entries, h, |before|, all[h]);
      } else {
        var i :| LastFor(defines, before, h, i, hosts[h]);
        assert LastFor(defines, entries, h, i, all[h]);
      }
    }
    forall i, h, u | 0 <= i < |entries| && defines(entries[i], h, u) ensures h in all {
      if i < |before| {
        assert defines(before[i], h, u);
      }
    }
  }

  /** What is read from the entries is the map they define. */
  lemma {:induction false} HostsExactly(readUrl: UrlReader, entries: seq<string>)
    ensures HostMapOf(readUrl, entries, ReadHosts(readUrl, entries))
  {
    if entries != [] {
      var n := |entries| - 1;
      HostsExactly(readUrl, entries[..n]);
      OneMoreEntry((entry, host, url) => DefinesHost(readUrl, entry, host, url),
                   entries[..n], entries[n], ReadHosts(readUrl, entries[..n]), ReadHost(readUrl, entries[n]));
      assert entries[..n] + [entries[n]] == entries;
    }
  }

  /** The loop over the entries: invalid ones are reported and passed over. */
  method ParseHosts(readUrl: UrlReader, entries: seq<string>)
    returns (hosts: map<string, Url>, errors: seq<ConfigError>)
    ensures hosts == ReadHosts(readUrl, entries) && HostMapOf(readUrl, entries, hosts)
    ensures EmptyHostMap !in errors && (errors == [] <==> AllGoodEntries(readUrl, entries))
  {
    hosts, errors := map[], [];
    for i := 0 to |entries|
      invariant hosts == ReadHosts(readUrl, entries[..i])
      invariant EmptyHostMap !in errors && (errors == [] <==> AllGoodEntries(readUrl, entries[..i]))
    {
      ReadHostsStep(readUrl, entries, i);
      assert GoodEntry(readUrl, entries[i]) <==> ReadHost(readUrl, entries[i]).Some?;
      var pair := ParseHost(readUrl, entries[i]);
      if pair.None? {
        errors := errors + [BadEntry(entries[i])];
        assert entries[..i + 1][i] == entries[i];
        continue;
      }
      hosts := hosts[pair.value.0 := pair.value.1];
      assert entries[..i + 1] == entries[..i] + [entries[i]];
    }
    assert entries[..|entries|] == entries;
    HostsExactly(readUrl, entries);
  }

  /** ParseRawProxyBackendHostURLMap: the map that the valid entries of the text define, and no error
      exactly if the text is not empty and every entry is valid. */
  method ParseRawHostMap(readUrl: UrlReader, raw: string)
    returns (hosts: map<string, Url>, errors: seq<ConfigError>)
    ensures raw == "" ==> hosts == map[] && errors == [EmptyHostMap]
    ensures raw != "" ==> hosts == ReadHosts(readUrl, Split(raw, ',')) && HostMapOf(readUrl, Split(raw, ','), hosts)
    ensures EmptyHostMap in errors <==> raw == ""
    ensures errors == [] <==> raw != "" && AllGoodEntries(readUrl, Split(raw, ','))
  {
    var entries := Split(raw, ',');
    if raw == "" || |entries| < 1 {
      return map[], [EmptyHostMap];
    }
    hosts, errors := ParseHosts(readUrl, entries);
  }
}
