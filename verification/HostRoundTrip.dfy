/**
 Printing a host map in its encoding, HOST_A>URL_A,HOST_B>URL_B, and parsing it gives the map back.
 */
module HostRoundTrip {
  import opened Wrappers
  import opened Text
  import opened IntervalMap
  import opened ShardConfig

  datatype Mapping = Mapping(host: string, url: Url)

  function PrintMapping(m: Mapping): string { m.host + ">" + m.url }

  function PrintMappings(ms: seq<Mapping>): (entries: seq<string>)
    ensures |entries| == |ms| && forall i :: 0 <= i < |ms| ==> entries[i] == PrintMapping(ms[i])
  {
    seq(|ms|, i requires 0 <= i < |ms| => PrintMapping(ms[i]))
  }

  function Print(ms: seq<Mapping>): string
    requires ms != []
  {
    Join(PrintMappings(ms), ',')
  }

  /** Host and URL avoid the delimiters, and the URL is a printed one. */
  predicate Printable(readUrl: UrlReader, m: Mapping) {
    ',' !in m.host && '>' !in m.host && ',' !in m.url && '>' !in m.url && readUrl(m.url) == Some(m.url)
  }

  ghost predicate AllPrintable(readUrl: UrlReader, ms: seq<Mapping>) {
    forall i :: 0 <= i < |ms| ==> Printable(readUrl, ms[i])
  }

  /** The mappings list a host map, every host once and in any order. */
  ghost predicate Lists(ms: seq<Mapping>, hosts: map<string, Url>) {
    && (forall i :: 0 <= i < |ms| ==> ms[i].host in hosts && ms[i].url == hosts[ms[i].host])
    && (forall h :: h in hosts ==> exists i :: 0 <= i < |ms| && ms[i].host == h)
  }

  /** A printed mapping defines its host and nothing else. */
  lemma PrintedDefines(readUrl: UrlReader, m: Mapping, host: string, url: Url)
    requires Printable(readUrl, m)
    ensures DefinesHost(readUrl, PrintMapping(m), host, url) <==> host == m.host && url == m.url
    ensures GoodEntry(readUrl, PrintMapping(m)) && ',' !in PrintMapping(m)
  {
    JoinTwo(m.host, m.url, '>');
    assert PrintMapping(m) == Join([m.host, m.url], '>');
    SplitJoin([m.host, m.url], '>');
  }

  lemma PrintedEntries(readUrl: UrlReader, ms: seq<Mapping>)
    requires ms != [] && AllPrintable(readUrl, ms)
    ensures Split(Print(ms), ',') == PrintMappings(ms) && AllGoodEntries(readUrl, PrintMappings(ms))
  {
    var entries := PrintMappings(ms);
    forall i | 0 <= i < |entries| ensures ',' !in entries[i] && GoodEntry(readUrl, entries[i]) {
      PrintedDefines(readUrl, ms[i], "", "");
    }
    SplitJoin(entries, ',');
  }

  /** The map that the mappings define is the one they list. */
  lemma DefinedIsListed(defines: Defines, entries: seq<string>, ms: seq<Mapping>, hosts: map<string, Url>, read: map<string, Url>)
    requires |entries| == |ms| && Lists(ms, hosts) && LastDefinitions(defines, entries, read)
    requires forall i, h, u :: 0 <= i < |ms| ==> (defines(entries[i], h, u) <==> h == ms[i].host && u == ms[i].url)
    ensures read == hosts
  {
    forall h | h in read ensures h in hosts && read[h] == hosts[h] {
      assert DefinedLast(defines, entries, h, read[h]);
    }
    forall h | h in hosts ensures h in read {
      var i :| 0 <= i < |ms| && ms[i].host == h;
      assert defines(entries[i], h, ms[i].url);
    }
  }

  /** A host map printed in whatever order comes back as the same map, without an error. */
  lemma HostMapRoundTrip(readUrl: UrlReader, ms: seq<Mapping>, hosts: map<string, Url>)
    requires ms != [] && AllPrintable(readUrl, ms) && Lists(ms, hosts)
    ensures ReadHosts(readUrl, Split(Print(ms), ',')) == hosts
    ensures AllGoodEntries(readUrl, Split(Print(ms), ','))
  {
    var entries := PrintMappings(ms);
    PrintedEntries(readUrl, ms);
    HostsExactly(readUrl, entries);
    var defines := (entry, host, url) => DefinesHost(readUrl, entry, host, url);
    forall i, h, u | 0 <= i < |ms| ensures defines(entries[i], h, u) <==> h == ms[i].host && u == ms[i].url {
      PrintedDefines(readUrl, ms[i], h, u);
    }
    DefinedIsListed(defines, entries, ms, hosts, ReadHosts(readUrl, entries));
  }
}
