/**
 The in-memory cache (clients/cache/inmemory.go). Expired entries are dropped only when a
 read runs into them; the main result is that no caller can tell.
 The clock readings of each operation are parameters; GetAll reads the clock anew for every entry.
 */
module CacheStore {
  import opened Wrappers
  import Calendar

  datatype Item<+V> = Item(data: V, expiration: int)

  type Store<+V> = map<string, Item<V>>

  /** The duration that means "cache indefinitely". */
  const INDEFINITELY: int := -1

  function Expiry(now: int, ttl: int): int {
    if ttl == INDEFINITELY then Calendar.AddCentury(now) else now + ttl
  }

  predicate Live<V>(item: Item<V>, now: int) { now <= item.expiration }

  // The effect of each operation on the stored map, and what it returns.

  function SetItem<V>(s: Store<V>, key: string, data: V, ttl: int, now: int): Store<V> {
    s[key := Item(data, Expiry(now, ttl))]
  }

  function Find<V>(s: Store<V>, key: string, now: int): Option<V> {
    if key in s && Live(s[key], now) then Some(s[key].data) else None
  }

  function Touch<V>(s: Store<V>, key: string, now: int): Store<V> {
    if key in s && Live(s[key], now) then s else s - {key}
  }

  /** The clock as read when a walk over the store comes to a key. */
  type Readings = string -> int

  function AllLive<V>(s: Store<V>, clock: Readings): map<string, V> {
    map k | k in s && Live(s[k], clock(k)) :: s[k].data
  }

  function Sweep<V>(s: Store<V>, clock: Readings): Store<V> {
    map k | k in s && Live(s[k], clock(k)) :: s[k]
  }

  class InMemoryCache<V(==)> {
    var data: Store<V>

    constructor ()
      ensures data == map[]
    {
      data := map[];
    }

    method Set(key: string, value: V, ttl: int, now: int)
      modifies this
      ensures data == SetItem(old(data), key, value, ttl, now)
      ensures data == old(data)[key := Item(value, if ttl == -1 then Calendar.AddCentury(now) else now + ttl)]
    {
      var expiry := now + ttl;
      if ttl == INDEFINITELY {
        expiry := Calendar.AddCentury(now);
      }
      data := data[key := Item(value, expiry)];
    }

    method Get(key: string, now: int) returns (r: Option<V>)
      modifies this
      ensures r == Find(old(data), key, now)
      ensures data == Touch(old(data), key, now)
    {
      if key !in data || now > data[key].expiration {
        data := data - {key};
        return None;
      }
      return Some(data[key].data);
    }

    method GetAll(clock: Readings) returns (result: map<string, V>)
      modifies this
      ensures result == AllLive(old(data), clock)
      ensures data == Sweep(old(data), clock)
    {
      result := map[];
      var remaining := data.Keys;
      while remaining != {}
        invariant remaining <= data.Keys <= old(data).Keys
        invariant forall k :: k in data ==> data[k] == old(data)[k]
        invariant forall k :: k in old(data) && k !in remaining ==> (k in data <==> Live(old(data)[k], clock(k)))
        invariant result == map k | k in old(data) && k !in remaining && Live(old(data)[k], clock(k)) :: old(data)[k].data
        decreases remaining
      {
        var key :| key in remaining;
        if clock(key) > data[key].expiration {
          data := data - {key};
        } else {
          result := result[key := data[key].data];
        }
        remaining := remaining - {key};
      }
      assert data == Sweep(old(data), clock);
    }

    method Delete(key: string)
      modifies this
      ensures data == old(data) - {key}
    {
      data := data - {key};
    }
  }

  // ------------------------------------------------ whole sequences of operations

  datatype Op<+V> =
    | SetOp(key: string, value: V, ttl: int)
    | GetOp(key: string)
    | GetAllOp(clock: Readings, until: int)
    | DeleteOp(key: string)

  datatype Event<+V> = Event(op: Op<V>, now: int)

  /** The last clock reading of an operation. */
  function End<V>(e: Event<V>): int {
    match e.op
    case GetAllOp(_, until) => until
    case _ => e.now
  }

  datatype Observation<+V> = Done | Value(found: Option<V>) | Values(all: map<string, V>)

  /** The cache as it is written: reads drop what they find expired. */
  function Evicting<V>(s: Store<V>, e: Event<V>): Store<V> {
    match e.op
    case SetOp(k, v, ttl) => SetItem(s, k, v, ttl, e.now)
    case GetOp(k) => Touch(s, k, e.now)
    case GetAllOp(clock, _) => Sweep(s, clock)
    case DeleteOp(k) => s - {k}
  }

  /** A store that never evicts: it only keeps the last write of every key. */
  function Keeping<V>(s: Store<V>, e: Event<V>): Store<V> {
    match e.op
    case SetOp(k, v, ttl) => SetItem(s, k, v, ttl, e.now)
    case GetOp(_) => s
    case GetAllOp(_, _) => s
    case DeleteOp(k) => s - {k}
  }

  function Answer<V>(s: Store<V>, e: Event<V>): Observation<V> {
    match e.op
    case SetOp(_, _, _) => Done
    case GetOp(k) => Value(Find(s, k, e.now))
    case GetAllOp(clock, _) => Values(AllLive(s, clock))
    case DeleteOp(_) => Done
  }

  function EvictingReplies<V>(s: Store<V>, trace: seq<Event<V>>): seq<Observation<V>>
    decreases |trace|
  {
    if |trace| == 0 then []
    else [Answer(s, trace[0])] + EvictingReplies(Evicting(s, trace[0]), trace[1..])
  }

  function KeepingReplies<V>(s: Store<V>, trace: seq<Event<V>>): seq<Observation<V>>
    decreases |trace|
  {
    if |trace| == 0 then []
    else [Answer(s, trace[0])] + KeepingReplies(Keeping(s, trace[0]), trace[1..])
  }

  /** The clock does not go back during an operation. */
  ghost predicate Forward<V>(e: Event<V>) {
    e.op.GetAllOp? ==> e.now <= e.op.until && forall k :: e.now <= e.op.clock(k) <= e.op.until
  }

  /** The clock never goes back, within operations or between them. */
  ghost predicate ClockFrom<V>(trace: seq<Event<V>>, start: int) {
    && (forall i :: 0 <= i < |trace| ==> start <= trace[i].now && Forward(trace[i]))
    && (forall i, j :: 0 <= i < j < |trace| ==> End(trace[i]) <= trace[j].now)
  }

  /** What the evicting store lacks had already expired when the clock read `now`. */
  ghost predicate Shadows<V>(evicting: Store<V>, keeping: Store<V>, now: int) {
    && (forall k :: k in evicting ==> k in keeping && keeping[k] == evicting[k])
    && (forall k :: k in keeping && k !in evicting ==> keeping[k].expiration < now)
  }

  lemma ShadowStep<V>(s: Store<V>, r: Store<V>, e: Event<V>, now: int)
    requires Shadows(s, r, now) && now <= e.now && Forward(e)
    ensures Answer(s, e) == Answer(r, e)
    ensures Shadows(Evicting(s, e), Keeping(r, e), End(e))
  {
    if e.op.GetAllOp? {
      assert AllLive(s, e.op.clock) == AllLive(r, e.op.clock);
    }
  }

  lemma {:induction false} ShadowRun<V>(s: Store<V>, r: Store<V>, trace: seq<Event<V>>, now: int)
    requires Shadows(s, r, now) && ClockFrom(trace, now)
    ensures EvictingReplies(s, trace) == KeepingReplies(r, trace)
    decreases |trace|
  {
    if trace != [] {
      var e := trace[0];
      ShadowStep(s, r, e, now);
      assert ClockFrom(trace[1..], End(e)) by {
        forall i | 0 <= i < |trace[1..]| ensures End(e) <= trace[1..][i].now && Forward(trace[1..][i]) {
          assert trace[1..][i] == trace[i + 1];
        }
      }
      ShadowRun(Evicting(s, e), Keeping(r, e), trace[1..], End(e));
    }
  }

  /** Under a clock that never goes back, eviction cannot be observed. */
  lemma EvictionUnobservable<V>(trace: seq<Event<V>>, now: int)
    requires ClockFrom(trace, now)
    ensures EvictingReplies(map[], trace) == KeepingReplies(map[], trace)
  {
    ShadowRun(map[], map[], trace, now);
  }

  // ------------------------------------------------------- what a read answers

  /** A value written with this duration at one instant is still there at another. */
  predicate StillThere(written: int, ttl: int, now: int) {
    if ttl == -1 then now <= Calendar.AddCentury(written) else now <= written + ttl
  }

  /** A value is readable exactly until its duration is over. */
  lemma FoundWhileItLasts<V>(s: Store<V>, key: string, value: V, ttl: int, written: int, now: int)
    ensures Find(SetItem(s, key, value, ttl, written), key, now)
            == if StillThere(written, ttl, now) then Some(value) else None
  {
  }

  predicate Rewrites<V>(e: Event<V>, key: string) {
    (e.op.SetOp? || e.op.DeleteOp?) && e.op.key == key
  }

  /** Event j writes the key, and up to event i nothing overwrites or deletes it. */
  ghost predicate LastWrite<V>(trace: seq<Event<V>>, key: string, j: int, i: int) {
    && 0 <= j < i <= |trace| && trace[j].op.SetOp? && trace[j].op.key == key
    && forall l :: j < l < i ==> !Rewrites(trace[l], key)
  }

  /** The store that never evicts, before event i. */
  function StoreAt<V>(s: Store<V>, trace: seq<Event<V>>, i: nat): Store<V>
    requires i <= |trace|
  {
    if i == 0 then s else Keeping(StoreAt(s, trace, i - 1), trace[i - 1])
  }

  lemma {:induction false} StoreAtTail<V>(s: Store<V>, trace: seq<Event<V>>, i: nat)
    requires 0 < i <= |trace|
    ensures StoreAt(s, trace, i) == StoreAt(Keeping(s, trace[0]), trace[1..], i - 1)
  {
    if i > 1 {
      StoreAtTail(s, trace, i - 1);
    }
  }

  lemma {:induction false} RepliesAt<V>(s: Store<V>, trace: seq<Event<V>>, i: nat)
    requires i < |trace|
    ensures |KeepingReplies(s, trace)| == |trace|
    ensures KeepingReplies(s, trace)[i] == Answer(StoreAt(s, trace, i), trace[i])
    decreases |trace|
  {
    if i > 0 {
      RepliesAt(Keeping(s, trace[0]), trace[1..], i - 1);
      StoreAtTail(s, trace, i);
    } else if |trace| > 1 {
      RepliesAt(Keeping(s, trace[0]), trace[1..], 0);
    }
  }

  /** The store that never evicts holds exactly the last writes. */
  lemma {:induction false} StoreHoldsLastWrites<V>(trace: seq<Event<V>>, key: string, i: nat)
    requires i <= |trace|
    ensures key in StoreAt(map[], trace, i) <==> exists j :: LastWrite(trace, key, j, i)
    ensures forall j :: LastWrite(trace, key, j, i) ==>
      key in StoreAt(map[], trace, i)
      && StoreAt(map[], trace, i)[key] == Item(trace[j].op.value, Expiry(trace[j].now, trace[j].op.ttl))
  {
    if i > 0 {
      var m := i - 1;
      StoreHoldsLastWrites(trace, key, m);
      if Rewrites(trace[m], key) {
        assert trace[m].op.SetOp? ==> LastWrite(trace, key, m, i);
      } else {
        assert key in StoreAt(map[], trace, i) <==> key in StoreAt(map[], trace, m);
        forall j ensures LastWrite(trace, key, j, i) <==> LastWrite(trace, key, j, m) {
        }
        if j :| LastWrite(trace, key, j, m) {
          assert LastWrite(trace, key, j, i);
        }
      }
    }
  }

  /** Before event i a read of the key at this instant is due to answer with this value. */
  ghost predicate Due<V(!new)>(trace: seq<Event<V>>, key: string, i: int, now: int, value: V) {
    exists j :: LastWrite(trace, key, j, i) && trace[j].op.value == value
                && StillThere(trace[j].now, trace[j].op.ttl, now)
  }

  lemma OneLastWrite<V>(trace: seq<Event<V>>, key: string, j: int, k: int, i: int)
    requires LastWrite(trace, key, j, i) && LastWrite(trace, key, k, i)
    ensures j == k
  {
  }

  lemma FoundIffDue<V(!new)>(trace: seq<Event<V>>, key: string, i: nat, now: int, value: V)
    requires i <= |trace|
    ensures Find(StoreAt(map[], trace, i), key, now) == Some(value) <==> Due(trace, key, i, now, value)
  {
    StoreHoldsLastWrites(trace, key, i);
    if j :| LastWrite(trace, key, j, i) {
      forall k | LastWrite(trace, key, k, i) ensures k == j {
        OneLastWrite(trace, key, j, k, i);
      }
    }
  }

  /** Under a clock that never goes back, a Get answers with a value exactly if that value was the last
      one set for its key, was not deleted since, and its duration is not over; and a GetAll
      lists exactly these, each by the clock as read for its key. */
  lemma ReadsAnswerLastWrites<V(!new)>(trace: seq<Event<V>>, start: int, i: nat, key: string, value: V)
    requires ClockFrom(trace, start) && i < |trace|
    ensures |EvictingReplies(map[], trace)| == |trace|
    ensures trace[i].op == GetOp(key) ==>
      (EvictingReplies(map[], trace)[i] == Value(Some(value)) <==> Due(trace, key, i, trace[i].now, value))
    ensures trace[i].op.GetAllOp? ==>
      && EvictingReplies(map[], trace)[i].Values?
      && var all := EvictingReplies(map[], trace)[i].all;
         key in all && all[key] == value <==> Due(trace, key, i, trace[i].op.clock(key), value)
  {
    EvictionUnobservable(trace, start);
    RepliesAt(map[], trace, i);
    if trace[i].op.GetAllOp? {
      FoundIffDue(trace, key, i, trace[i].op.clock(key), value);
    } else {
      FoundIffDue(trace, key, i, trace[i].now, value);
    }
  }

  /** The clock assumption is needed: a read after a step back sees the eviction. */
  lemma EvictionObservableIfClockGoesBack()
    ensures var trace := [Event(SetOp("k", 0, 10), 0), Event(GetOp("k"), 11), Event(GetOp("k"), 5)];
            EvictingReplies<int>(map[], trace) != KeepingReplies(map[], trace)
  {
    var trace := [Event(SetOp("k", 0, 10), 0), Event(GetOp("k"), 11), Event(GetOp("k"), 5)];
    var t1, t2 := trace[1..], trace[2..];
    var s := SetItem<int>(map[], "k", 0, 10, 0);
    assert t1[1..] == t2 && t1[0] == trace[1] && t2[0] == trace[2];
    assert s["k"] == Item(0, 10);
    assert Evicting(map[], trace[0]) == s == Keeping(map[], trace[0]);
    assert Evicting(s, t1[0]) == s - {"k"} && Keeping(s, t1[0]) == s;
    assert EvictingReplies(map[], trace)[2] == EvictingReplies(s, t1)[1] == EvictingReplies(s - {"k"}, t2)[0] == Value(None);
    assert KeepingReplies(map[], trace)[2] == KeepingReplies(s, t1)[1] == KeepingReplies(s, t2)[0] == Value(Some(0));
  }

  /** An entry written with the sentinel duration stays readable for at least 36524 days. */
  lemma IndefiniteEntriesLast<V>(s: Store<V>, key: string, value: V, written: int, now: int)
    requires now <= written + Calendar.Midnight(36524)
    ensures Find(SetItem(s, key, value, INDEFINITELY, written), key, now) == Some(value)
  {
    Calendar.CenturyIsLong(written);
  }
}
