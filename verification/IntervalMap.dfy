/**
 Shards of one host: block heights cut into intervals by their end heights
 (config/intervalmap.go). A height belongs to the interval with the least end height that
 is not below it; the code finds it by bisection.
 */
module IntervalMap {
  import opened Wrappers

  /** A parsed URL in its printed form. */
  type Url = string

  datatype IntervalUrlMap = IntervalUrlMap(urlByEndHeight: map<nat, Url>, endpoints: seq<nat>)

  ghost predicate Increasing(s: seq<nat>) {
    forall i, j :: 0 <= i < j < |s| ==> s[i] < s[j]
  }

  /** The endpoints are the keys of the map in increasing order. */
  ghost predicate Valid(im: IntervalUrlMap) {
    Increasing(im.endpoints) && forall e :: e in im.endpoints <==> e in im.urlByEndHeight
  }

  // ------------------------------------------------------------- construction

  /** One step of the sort: the place of a new endpoint. */
  function Insert(e: nat, s: seq<nat>): (r: seq<nat>)
    requires Increasing(s) && e !in s
    ensures Increasing(r) && forall x :: x in r <==> x == e || x in s
  {
    if s == [] || e < s[0] then [e] + s
    else
      var rest := Insert(e, s[1..]);
      assert s == [s[0]] + s[1..];
      assert forall k :: 0 <= k < |rest| ==> rest[k] in rest;
      [s[0]] + rest
  }

  function Sort(s: seq<nat>): (r: seq<nat>)
    requires forall i, j :: 0 <= i < j < |s| ==> s[i] != s[j]
    ensures Increasing(r) && forall x :: x in r <==> x in s
  {
    if s == [] then []
    else
      assert s == [s[0]] + s[1..];
      Insert(s[0], Sort(s[1..]))
  }

  method NewIntervalUrlMap(urlByEndHeight: map<nat, Url>) returns (im: IntervalUrlMap)
    ensures Valid(im) && im.urlByEndHeight == urlByEndHeight
  {
    var endpoints: seq<nat> := [];
    var keys := urlByEndHeight.Keys;
    while keys != {}
      invariant keys <= urlByEndHeight.Keys
      invariant forall e :: e in endpoints <==> e in urlByEndHeight && e !in keys
      invariant forall i, j :: 0 <= i < j < |endpoints| ==> endpoints[i] != endpoints[j]
      decreases keys
    {
      var e :| e in keys;
      endpoints := endpoints + [e];
      keys := keys - {e};
    }
    endpoints := Sort(endpoints);
    im := IntervalUrlMap(urlByEndHeight, endpoints);
  }

  /** A map has only one valid index. */
  lemma {:induction false} IncreasingUnique(a: seq<nat>, b: seq<nat>)
    requires Increasing(a) && Increasing(b) && forall e :: e in a <==> e in b
    ensures a == b
  {
    assert a != [] ==> a[0] in a && a[0] in b;
    assert b != [] ==> b[0] in b && b[0] in a;
    if a != [] {
      var i :| 0 <= i < |a| && a[i] == b[0];
      var j :| 0 <= j < |b| && b[j] == a[0];
      assert a[0] <= a[i] && b[0] <= b[j];
      assert a == [a[0]] + a[1..] && b == [b[0]] + b[1..];
      forall e ensures e in a[1..] <==> e in b[1..] {
        assert e in a <==> e == a[0] || e in a[1..];
        assert e in b <==> e == b[0] || e in b[1..];
        assert a[0] !in a[1..] && b[0] !in b[1..];
      }
      IncreasingUnique(a[1..], b[1..]);
    }
  }

  // --------------------------------------------------------------------- lookup

  datatype Shard = Shard(end: nat, route: Url)

  /** The linear scan: index of the first endpoint not below num, or the number of endpoints. */
  function Scan(endpoints: seq<nat>, num: nat): (i: nat)
    ensures i <= |endpoints|
  {
    if endpoints == [] || endpoints[0] >= num then 0 else 1 + Scan(endpoints[1..], num)
  }

  lemma {:induction false} ScanFinds(endpoints: seq<nat>, num: nat)
    requires Increasing(endpoints)
    ensures forall k :: 0 <= k < |endpoints| ==> (k < Scan(endpoints, num) <==> endpoints[k] < num)
  {
    if endpoints != [] && endpoints[0] < num {
      ScanFinds(endpoints[1..], num);
      forall k | 0 < k < |endpoints| ensures k < Scan(endpoints, num) <==> endpoints[k] < num {
        assert endpoints[k] == endpoints[1..][k - 1];
      }
    }
  }

  function Lookup(im: IntervalUrlMap, num: nat): Option<Shard>
    requires Valid(im)
  {
    var i := Scan(im.endpoints, num);
    if i < |im.endpoints| then
      assert im.endpoints[i] in im.endpoints;
      Some(Shard(im.endpoints[i], im.urlByEndHeight[im.endpoints[i]]))
    else None
  }

  /** Lookup by bisection (sort.Search) gives what the linear scan gives. */
  method LookupByBisection(im: IntervalUrlMap, num: nat) returns (r: Option<Shard>)
    requires Valid(im)
    ensures r == Lookup(im, num)
  {
    var n := |im.endpoints|;
    var i, j := 0, n;
    while i < j
      invariant 0 <= i <= j <= n
      invariant forall k :: 0 <= k < i ==> im.endpoints[k] < num
      invariant forall k :: j <= k < n ==> im.endpoints[k] >= num
    {
      var h := (i + j) / 2;
      if im.endpoints[h] < num {
        i := h + 1;
      } else {
        j := h;
      }
    }
    ScanFinds(im.endpoints, num);
    assert i == Scan(im.endpoints, num) by {
      assert i < n ==> im.endpoints[i] >= num;
      assert i > 0 ==> im.endpoints[i - 1] < num;
    }
    if i < n && num <= im.endpoints[i] {
      assert im.endpoints[i] in im.endpoints;
      return Some(Shard(im.endpoints[i], im.urlByEndHeight[im.endpoints[i]]));
    }
    return None;
  }

  /** A lookup finds the least end height not below the number, with its own route, and fails only
      beyond the last end height. */
  lemma LookupIsLeast(im: IntervalUrlMap, num: nat)
    requires Valid(im)
    ensures var r := Lookup(im, num);
            && (r.Some? ==>
                  && r.value.end in im.urlByEndHeight && r.value.route == im.urlByEndHeight[r.value.end]
                  && num <= r.value.end
                  && forall e :: e in im.urlByEndHeight && num <= e ==> r.value.end <= e)
            && (r.None? <==> forall e :: e in im.urlByEndHeight ==> e < num)
  {
    ScanFinds(im.endpoints, num);
    var i := Scan(im.endpoints, num);
    if i < |im.endpoints| {
      assert im.endpoints[i] in im.endpoints;
      forall e | e in im.urlByEndHeight && num <= e ensures im.endpoints[i] <= e {
        assert e in im.endpoints;
        var k :| 0 <= k < |im.endpoints| && im.endpoints[k] == e;
      }
    } else {
      forall e | e in im.urlByEndHeight ensures e < num {
        assert e in im.endpoints;
        var k :| 0 <= k < |im.endpoints| && im.endpoints[k] == e;
      }
    }
  }

  /** The lower end, exclusive, of the i-th interval. */
  function Previous(im: IntervalUrlMap, i: nat): nat
    requires i < |im.endpoints|
  {
    if i == 0 then 0 else im.endpoints[i - 1]
  }

  predicate InInterval(im: IntervalUrlMap, i: nat, num: nat)
    requires i < |im.endpoints|
  {
    Previous(im, i) < num <= im.endpoints[i]
  }

  /** The shards partition the heights: every height from 1 to the last end height lies in exactly one
      interval, and that is the one a lookup returns. */
  lemma ShardsPartitionHeights(im: IntervalUrlMap, num: nat)
    requires Valid(im) && |im.endpoints| > 0 && 1 <= num <= im.endpoints[|im.endpoints| - 1]
    ensures Scan(im.endpoints, num) < |im.endpoints|
    ensures InInterval(im, Scan(im.endpoints, num), num)
    ensures forall k :: 0 <= k < |im.endpoints| && InInterval(im, k, num) ==> k == Scan(im.endpoints, num)
    ensures Lookup(im, num).Some? && Lookup(im, num).value.end == im.endpoints[Scan(im.endpoints, num)]
  {
    ScanFinds(im.endpoints, num);
  }

  /** A greater height never goes to a shard that ends earlier. */
  lemma LookupMonotone(im: IntervalUrlMap, a: nat, b: nat)
    requires Valid(im) && a <= b && Lookup(im, b).Some?
    ensures Lookup(im, a).Some? && Lookup(im, a).value.end <= Lookup(im, b).value.end
  {
    LookupIsLeast(im, a);
    LookupIsLeast(im, b);
  }
}
