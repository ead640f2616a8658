/**
 Printing a shard map in the documented encoding (architecture/PROXY_ROUTING.md) and parsing
 it gives the map back; and whatever the parser accepts is a proper shard map.
 */
module ShardRoundTrip {
  import opened Wrappers
  import opened Text
  import opened IntervalMap
  import opened ShardConfig

  // ---------------------------------------------------------------------- printing

  function PrintShards(shards: seq<Shard>): (values: seq<string>)
    ensures |values| == 2 * |shards|
  {
    if shards == [] then [] else [Decimal(shards[0].end), shards[0].route] + PrintShards(shards[1..])
  }

  function PrintDefinition(d: Definition): string
    requires |d.shards| >= 1
  {
    Join([d.host, Join(PrintShards(d.shards), '|')], '>')
  }

  function PrintAll(defs: seq<Definition>): (entries: seq<string>)
    requires forall i :: 0 <= i < |defs| ==> |defs[i].shards| >= 1
    ensures |entries| == |defs|
  {
    if defs == [] then [] else [PrintDefinition(defs[0])] + PrintAll(defs[1..])
  }

  function Print(defs: seq<Definition>): string
    requires forall i :: 0 <= i < |defs| ==> |defs[i].shards| >= 1
  {
    if defs == [] then "" else Join(PrintAll(defs), ',')
  }

  lemma PrintTwoShards(h: string, s: Shard, t: Shard)
    ensures PrintDefinition(Definition(h, [s, t]))
            == h + ">" + (Decimal(s.end) + "|" + (s.route + "|" + (Decimal(t.end) + "|" + t.route)))
  {
    var p := [Decimal(s.end), s.route, Decimal(t.end), t.route];
    assert [s, t][1..] == [t] && [t][1..] == [];
    assert PrintShards([s, t]) == p;
    assert p[1..][1..] == [Decimal(t.end), t.route];
    JoinTwo(Decimal(t.end), t.route, '|');
    assert Join(p[1..], '|') == s.route + ['|'] + Join(p[1..][1..], '|');
    JoinTwo(h, Join(p, '|'), '>');
  }

  lemma PrintOneShard(h: string, s: Shard)
    ensures PrintDefinition(Definition(h, [s])) == h + ">" + (Decimal(s.end) + "|" + s.route)
  {
    assert [s][1..] == [];
    assert PrintShards([s]) == [Decimal(s.end), s.route];
    JoinTwo(Decimal(s.end), s.route, '|');
    JoinTwo(h, Decimal(s.end) + "|" + s.route, '>');
  }

  /** The documented encoding of two shards for one host and one shard for another. */
  lemma DocumentedEncoding(a: string, a1: Shard, a2: Shard, b: string, b1: Shard)
    ensures Print([Definition(a, [a1, a2]), Definition(b, [b1])])
            == (a + ">" + (Decimal(a1.end) + "|" + (a1.route + "|" + (Decimal(a2.end) + "|" + a2.route))))
               + "," + (b + ">" + (Decimal(b1.end) + "|" + b1.route))
  {
    var d, e := Definition(a, [a1, a2]), Definition(b, [b1]);
    PrintTwoShards(a, a1, a2);
    PrintOneShard(b, b1);
    assert [d, e][1..] == [e] && [e][1..] == [];
    assert PrintAll([d, e]) == [PrintDefinition(d), PrintDefinition(e)];
    JoinTwo(PrintDefinition(d), PrintDefinition(e), ',');
  }

  /** The map that a list of definitions denotes: the last definition of a host counts. */
  function Enter(defs: seq<Definition>, parsed: map<string, IntervalUrlMap>): map<string, IntervalUrlMap>
    decreases |defs|
  {
    if defs == [] then parsed else Enter(defs[1..], parsed[defs[0].host := OfShards(defs[0].shards)])
  }

  function MapOf(defs: seq<Definition>): map<string, IntervalUrlMap> { Enter(defs, map[]) }

  ghost predicate PrintableRoute(readUrl: UrlReader, route: string) {
    ',' !in route && '>' !in route && '|' !in route && readUrl(route) == Some(route)
  }

  /** Hosts and routes avoid the delimiters, and routes are printed URLs. */
  ghost predicate Printable(readUrl: UrlReader, d: Definition) {
    && ',' !in d.host && '>' !in d.host
    && |d.shards| >= 1 && GoodShards(d.shards)
    && forall i :: 0 <= i < |d.shards| ==> PrintableRoute(readUrl, d.shards[i].route)
  }

  // ------------------------------------------------------- printing, then parsing

  lemma DecimalFree(n: nat, c: char)
    requires !IsDigit(c)
    ensures c !in Decimal(n)
  {
  }

  lemma {:induction false} PrintShardsFree(shards: seq<Shard>, c: char)
    requires !IsDigit(c) && forall i :: 0 <= i < |shards| ==> c !in shards[i].route
    ensures AllFree(PrintShards(shards), c)
  {
    if shards != [] {
      PrintShardsFree(shards[1..], c);
      DecimalFree(shards[0].end, c);
    }
  }

  lemma {:induction false} ReadPrintedShards(readUrl: UrlReader, host: string, shards: seq<Shard>, done: seq<Shard>, max: nat)
    requires GoodShards(done + shards) && Max(done, max)
    requires forall i :: 0 <= i < |shards| ==> PrintableRoute(readUrl, shards[i].route)
    ensures ReadShards(readUrl, host, PrintShards(shards), done, max) == Ok(done + shards)
    decreases |shards|
  {
    if shards == [] {
      assert done + shards == done;
    } else {
      var s := shards[0];
      var all := done + shards;
      assert all[|done|] == s;
      ParseUint64OfDecimal(s.end);
      FreshHeight(done, shards);
      var values := PrintShards(shards);
      assert values[2..] == PrintShards(shards[1..]);
      assert done + [s] + shards[1..] == done + shards;
      ReadPrintedShards(readUrl, host, shards[1..], done + [s], s.end);
    }
  }

  /** The next end height is new and above all before it. */
  lemma FreshHeight(done: seq<Shard>, shards: seq<Shard>)
    requires shards != [] && GoodShards(done + shards)
    ensures shards[0].end !in RouteMap(done)
    ensures done != [] ==> done[|done| - 1].end < shards[0].end
  {
    var all := done + shards;
    RouteMapKeys(done);
    assert forall i :: 0 <= i < |done| ==> all[i] == done[i];
    assert all[|done|] == shards[0];
  }

  /** A printed definition splits into its host and its values, and holds no comma. */
  lemma PrintedPieces(readUrl: UrlReader, d: Definition)
    requires Printable(readUrl, d)
    ensures Split(PrintDefinition(d), '>') == [d.host, Join(PrintShards(d.shards), '|')]
    ensures Split(Join(PrintShards(d.shards), '|'), '|') == PrintShards(d.shards)
    ensures ',' !in PrintDefinition(d)
  {
    var values := PrintShards(d.shards);
    var body := Join(values, '|');
    forall i | 0 <= i < |d.shards|
      ensures ',' !in d.shards[i].route && '>' !in d.shards[i].route && '|' !in d.shards[i].route
    {
      assert PrintableRoute(readUrl, d.shards[i].route);
    }
    PrintShardsFree(d.shards, '>');
    PrintShardsFree(d.shards, '|');
    PrintShardsFree(d.shards, ',');
    JoinFree(values, '|', '>');
    JoinFree(values, '|', ',');
    SplitJoin([d.host, body], '>');
    SplitJoin(values, '|');
    JoinFree([d.host, body], '>', ',');
  }

  lemma ReadPrintedDefinition(readUrl: UrlReader, d: Definition)
    requires Printable(readUrl, d)
    ensures ReadDefinition(readUrl, PrintDefinition(d)) == Ok(d)
  {
    var body := Join(PrintShards(d.shards), '|');
    assert Split(PrintDefinition(d), '>') == [d.host, body] && Split(body, '|') == PrintShards(d.shards) by {
      PrintedPieces(readUrl, d);
    }
    ReadPrintedDefinitionShards(readUrl, d);
    ReadFromPieces(readUrl, PrintDefinition(d), d, body, PrintShards(d.shards));
  }

  lemma ReadPrintedDefinitionShards(readUrl: UrlReader, d: Definition)
    requires Printable(readUrl, d)
    ensures ReadShards(readUrl, d.host, PrintShards(d.shards), [], 0) == Ok(d.shards)
  {
    assert [] + d.shards == d.shards;
    ReadPrintedShards(readUrl, d.host, d.shards, [], 0);
  }

  lemma ReadFromPieces(readUrl: UrlReader, entry: string, d: Definition, body: string, values: seq<string>)
    requires Split(entry, '>') == [d.host, body] && Split(body, '|') == values && |values| % 2 == 0
    requires ReadShards(readUrl, d.host, values, [], 0) == Ok(d.shards)
    ensures ReadDefinition(readUrl, entry) == Ok(d)
  {
  }

  ghost predicate AllPrintable(readUrl: UrlReader, defs: seq<Definition>) {
    forall i :: 0 <= i < |defs| ==> Printable(readUrl, defs[i])
  }

  lemma {:induction false} ReadPrintedMap(readUrl: UrlReader, defs: seq<Definition>, parsed: map<string, IntervalUrlMap>)
    requires AllPrintable(readUrl, defs)
    ensures AllFree(PrintAll(defs), ',')
    ensures ReadMap(readUrl, PrintAll(defs), parsed) == (Enter(defs, parsed), None)
    decreases |defs|
  {
    if defs != [] {
      assert Printable(readUrl, defs[0]);
      ReadPrintedDefinition(readUrl, defs[0]);
      PrintedPieces(readUrl, defs[0]);
      assert PrintAll(defs)[1..] == PrintAll(defs[1..]);
      ReadPrintedMap(readUrl, defs[1..], parsed[defs[0].host := OfShards(defs[0].shards)]);
    }
  }

  /** The round trip: every list of printable definitions parses back to the map it denotes. */
  lemma ParsePrinted(readUrl: UrlReader, defs: seq<Definition>)
    requires AllPrintable(readUrl, defs)
    ensures ReadShardMap(readUrl, Print(defs)) == (MapOf(defs), None)
  {
    if defs != [] {
      ReadPrintedMap(readUrl, defs, map[]);
      SplitJoin(PrintAll(defs), ',');
      assert Print(defs) != "" by {
        if |defs| == 1 {
          assert PrintAll(defs)[0] == PrintDefinition(defs[0]);
        }
        PrintedNotEmpty(defs[0]);
      }
    }
  }

  lemma PrintedNotEmpty(d: Definition)
    requires |d.shards| >= 1
    ensures PrintDefinition(d) != ""
  {
    JoinTwo(d.host, Join(PrintShards(d.shards), '|'), '>');
  }

  /** The definitions list a host map, every host once and in any order. */
  ghost predicate Lists(defs: seq<Definition>, shardsOf: map<string, seq<Shard>>) {
    && (forall i :: 0 <= i < |defs| ==> defs[i].host in shardsOf && defs[i].shards == shardsOf[defs[i].host])
    && (forall h :: h in shardsOf ==> exists i :: 0 <= i < |defs| && defs[i].host == h)
    && (forall i, j :: 0 <= i < j < |defs| ==> defs[i].host != defs[j].host)
  }

  /** A listing denotes the map it lists. */
  lemma ListingDenotes(defs: seq<Definition>, shardsOf: map<string, seq<Shard>>, host: string)
    requires Lists(defs, shardsOf)
    ensures host in MapOf(defs) <==> host in shardsOf
    ensures host in shardsOf ==> MapOf(defs)[host] == OfShards(shardsOf[host])
  {
    EnterKeepsHost(defs, map[], host);
    if host in shardsOf {
      var i :| 0 <= i < |defs| && defs[i].host == host;
      EnterLast(defs, map[], i);
    }
  }

  function Indexed(shardsOf: map<string, seq<Shard>>): map<string, IntervalUrlMap> {
    map h | h in shardsOf :: OfShards(shardsOf[h])
  }

  lemma ListingIsIndexed(defs: seq<Definition>, shardsOf: map<string, seq<Shard>>)
    requires Lists(defs, shardsOf)
    ensures MapOf(defs) == Indexed(shardsOf)
  {
    forall h
      ensures h in MapOf(defs) <==> h in shardsOf
      ensures h in shardsOf ==> MapOf(defs)[h] == OfShards(shardsOf[h])
    {
      ListingDenotes(defs, shardsOf, h);
    }
  }

  /** A map printed in whatever order comes back as the same map. */
  lemma MapRoundTrip(readUrl: UrlReader, defs: seq<Definition>, shardsOf: map<string, seq<Shard>>)
    requires AllPrintable(readUrl, defs) && Lists(defs, shardsOf)
    ensures ReadShardMap(readUrl, Print(defs)) == (Indexed(shardsOf), None)
  {
    ParsePrinted(readUrl, defs);
    ListingIsIndexed(defs, shardsOf);
  }

  // ------------------------------------------------------------- what is accepted

  lemma {:induction false} EnterKeepsHost(defs: seq<Definition>, parsed: map<string, IntervalUrlMap>, host: string)
    ensures (forall i :: 0 <= i < |defs| ==> defs[i].host != host) ==>
            (host in Enter(defs, parsed) <==> host in parsed)
            && (host in parsed ==> Enter(defs, parsed)[host] == parsed[host])
    ensures host in Enter(defs, parsed) <==> host in parsed || exists i :: 0 <= i < |defs| && defs[i].host == host
    decreases |defs|
  {
    if defs != [] {
      EnterKeepsHost(defs[1..], parsed[defs[0].host := OfShards(defs[0].shards)], host);
      if i :| 0 <= i < |defs[1..]| && defs[1..][i].host == host {
        assert defs[i + 1].host == host;
      }
      if i :| 0 < i < |defs| && defs[i].host == host {
        assert defs[1..][i - 1].host == host;
      }
    }
  }

  /** The last definition of a host wins. */
  lemma {:induction false} EnterLast(defs: seq<Definition>, parsed: map<string, IntervalUrlMap>, k: nat)
    requires k < |defs| && forall i :: k < i < |defs| ==> defs[i].host != defs[k].host
    ensures defs[k].host in Enter(defs, parsed) && Enter(defs, parsed)[defs[k].host] == OfShards(defs[k].shards)
    decreases |defs|
  {
    var next := parsed[defs[0].host := OfShards(defs[0].shards)];
    if k == 0 {
      EnterKeepsHost(defs[1..], next, defs[0].host);
    } else {
      EnterLast(defs[1..], next, k - 1);
    }
  }

  ghost predicate AllRead(readUrl: UrlReader, entries: seq<string>) {
    forall i :: 0 <= i < |entries| ==> ReadDefinition(readUrl, entries[i]).Ok?
  }

  /** What the entries of an accepted text define. */
  function Definitions(readUrl: UrlReader, entries: seq<string>): (defs: seq<Definition>)
    requires AllRead(readUrl, entries)
    ensures |defs| == |entries| && forall i :: 0 <= i < |defs| ==> Ok(defs[i]) == ReadDefinition(readUrl, entries[i])
  {
    if entries == [] then [] else [ReadDefinition(readUrl, entries[0]).value] + Definitions(readUrl, entries[1..])
  }

  lemma {:induction false} AcceptedMap(readUrl: UrlReader, entries: seq<string>, parsed: map<string, IntervalUrlMap>)
    ensures ReadMap(readUrl, entries, parsed).1.None? <==> AllRead(readUrl, entries)
    ensures ReadMap(readUrl, entries, parsed).1.None? ==>
            ReadMap(readUrl, entries, parsed).0 == Enter(Definitions(readUrl, entries), parsed)
    decreases |entries|
  {
    if entries != [] && ReadDefinition(readUrl, entries[0]).Ok? {
      var d := ReadDefinition(readUrl, entries[0]).value;
      AcceptedMap(readUrl, entries[1..], parsed[d.host := OfShards(d.shards)]);
      if AllRead(readUrl, entries[1..]) {
        forall i | 0 <= i < |entries| ensures ReadDefinition(readUrl, entries[i]).Ok? {
          if i > 0 {
            assert entries[i] == entries[1..][i - 1];
          }
        }
        assert Definitions(readUrl, entries)[1..] == Definitions(readUrl, entries[1..]);
      }
    }
  }

  /** The first entry that is no definition is entry i. */
  ghost predicate StopsAtEntry(readUrl: UrlReader, entries: seq<string>, i: int, e: ConfigError) {
    && 0 <= i < |entries| && AllRead(readUrl, entries[..i]) && ReadDefinition(readUrl, entries[i]) == Err(e)
  }

  /** A rejected text leaves the map of the definitions before the first bad entry, with the error of that entry. */
  lemma {:induction false} RejectedMap(readUrl: UrlReader, entries: seq<string>, parsed: map<string, IntervalUrlMap>, i: int, e: ConfigError)
    requires StopsAtEntry(readUrl, entries, i, e)
    ensures ReadMap(readUrl, entries, parsed) == (Enter(Definitions(readUrl, entries[..i]), parsed), Some(e))
    decreases |entries|
  {
    if i > 0 {
      var good := entries[1..][..i - 1];
      assert entries[..i][0] == entries[0] && entries[..i][1..] == good;
      var d := ReadDefinition(readUrl, entries[0]).value;
      forall j | 0 <= j < |good| ensures ReadDefinition(readUrl, good[j]).Ok? {
        assert good[j] == entries[..i][j + 1];
      }
      assert Definitions(readUrl, entries[..i]) == [d] + Definitions(readUrl, good);
      RejectedMap(readUrl, entries[1..], parsed[d.host := OfShards(d.shards)], i - 1, e);
    }
  }

  lemma DefinitionsGood(readUrl: UrlReader, entries: seq<string>)
    requires AllRead(readUrl, entries)
    ensures var defs := Definitions(readUrl, entries);
            forall i :: 0 <= i < |defs| ==>
              && GoodShards(defs[i].shards) && |defs[i].shards| >= 1
              && defs[i].host == Split(entries[i], '>')[0]
  {
    var defs := Definitions(readUrl, entries);
    forall i | 0 <= i < |defs|
      ensures GoodShards(defs[i].shards) && |defs[i].shards| >= 1 && defs[i].host == Split(entries[i], '>')[0]
    {
      assert Ok(defs[i]) == ReadDefinition(readUrl, entries[i]);
      ReadDefinitionGood(readUrl, entries[i]);
    }
  }

  /** A text is accepted exactly when each of its entries is a definition; the map it then denotes is
      that of these definitions. */
  lemma AcceptedExactly(readUrl: UrlReader, raw: string)
    requires raw != ""
    ensures var entries := Split(raw, ',');
            var read := ReadShardMap(readUrl, raw);
            && (read.1.None? <==> AllRead(readUrl, entries))
            && (read.1.None? ==> read.0 == MapOf(Definitions(readUrl, entries)))
  {
    var entries := Split(raw, ',');
    assert ReadShardMap(readUrl, raw) == ReadMap(readUrl, entries, map[]);
    AcceptedMap(readUrl, entries, map[]);
  }

  function HostOf(entry: string): string { Split(entry, '>')[0] }

  /** Entry k is the last one for its host, and the interval map is that of its shards. */
  ghost predicate LastDefinition(readUrl: UrlReader, entries: seq<string>, k: int, im: IntervalUrlMap) {
    && 0 <= k < |entries|
    && (forall j :: k < j < |entries| ==> HostOf(entries[j]) != HostOf(entries[k]))
    && ReadDefinition(readUrl, entries[k]).Ok?
    && var shards := ReadDefinition(readUrl, entries[k]).value.shards;
       GoodShards(shards) && |shards| >= 1 && im == OfShards(shards) && Valid(im)
  }

  lemma ProperFromDefinitions(readUrl: UrlReader, entries: seq<string>, host: string)
    requires AllRead(readUrl, entries)
    ensures var parsed := MapOf(Definitions(readUrl, entries));
            && (host in parsed <==> exists i :: 0 <= i < |entries| && HostOf(entries[i]) == host)
            && (host in parsed ==>
                  exists k :: LastDefinition(readUrl, entries, k, parsed[host]) && HostOf(entries[k]) == host)
  {
    var defs := Definitions(readUrl, entries);
    DefinitionsGood(readUrl, entries);
    assert forall i :: 0 <= i < |entries| ==> defs[i].host == HostOf(entries[i]);
    EnterKeepsHost(defs, map[], host);
    forall i | 0 <= i < |entries| && HostOf(entries[i]) == host ensures host in MapOf(defs) {
      assert defs[i].host == host;
    }
    if host in MapOf(defs) {
      var i :| 0 <= i < |defs| && defs[i].host == host;
      assert HostOf(entries[i]) == host;
      var k := LastOf(defs, host, i);
      EnterLast(defs, map[], k);
      OfShardsValid(defs[k].shards);
      assert Ok(defs[k]) == ReadDefinition(readUrl, entries[k]);
      assert LastDefinition(readUrl, entries, k, MapOf(defs)[host]);
    }
  }

  /** In an accepted map a host is present exactly when some entry defines it, and it has the shards of
      its last definition: at least one, strictly increasing nonzero end heights, a non-empty
      route for each, and a valid index over them. */
  lemma AcceptedIsProper(readUrl: UrlReader, raw: string, host: string)
    requires raw != "" && ReadShardMap(readUrl, raw).1.None?
    ensures var parsed, entries := ReadShardMap(readUrl, raw).0, Split(raw, ',');
            && (host in parsed <==> exists i :: 0 <= i < |entries| && HostOf(entries[i]) == host)
            && (host in parsed ==>
                  exists k :: LastDefinition(readUrl, entries, k, parsed[host]) && HostOf(entries[k]) == host)
  {
    AcceptedExactly(readUrl, raw);
    ProperFromDefinitions(readUrl, Split(raw, ','), host);
  }

  lemma {:induction false} LastOf(defs: seq<Definition>, host: string, i: nat) returns (k: nat)
    requires i < |defs| && defs[i].host == host
    ensures i <= k < |defs| && defs[k].host == host
    ensures forall j :: k < j < |defs| ==> defs[j].host != host
    decreases |defs| - i
  {
    if j :| i < j < |defs| && defs[j].host == host {
      k := LastOf(defs, host, j);
    } else {
      k := i;
    }
  }
}
