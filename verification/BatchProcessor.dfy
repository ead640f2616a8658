/**
 The shared state of a batch and the operations its goroutines run on it under a mutex
 (service/batchmdw/batch_processor.go, service/batchmdw/fake_response_writer.go), and the
 construction of the sub-requests (service/batchmdw/batchmdw.go).
 */
module BatchProcessor {
  import opened Wrappers
  import opened Decode
  import opened ServiceCache

  const OK: int := 200
  const ENTITY_TOO_LARGE: int := 413
  const CONTENT_LENGTH: string := "Content-Length"

  /** The fields of a BatchProcessor that its goroutines share. */
  datatype Shared = Shared(responses: seq<Option<string>>, header: Option<Header>, cacheHits: nat, status: int)

  function NewShared(n: nat): Shared { Shared(seq(n, _ => None), None, 0, OK) }

  function SetResponse(sh: Shared, i: nat, buf: string): Shared
    requires i < |sh.responses|
  {
    sh.(responses := sh.responses[i := Some(buf)])
  }

  /** Content-Length and the cache status of a single response do not hold for the batch. */
  function Strip(h: Header): Header { h - {CONTENT_LENGTH, CACHE_STATUS} }

  function ApplyHeaders(sh: Shared, h: Header): Shared {
    sh.(header := if sh.header.None? then Some(Strip(h)) else sh.header,
        cacheHits := if IsCacheHitHeaders(h) then sh.cacheHits + 1 else sh.cacheHits)
  }

  function SetErrStatus(sh: Shared, status: int): Shared { sh.(status := status) }

  function CacheHitValue(total: nat, hits: nat): string {
    if hits == 0 || total == 0 then MISS else if hits == total then HIT else PARTIAL
  }

  // ----------------------------------------------------------- the collated response

  /** An empty buffer is marshalled as null. */
  function Element(buf: string): string { if buf == "" then "null" else buf }

  function Elements(responses: seq<Option<string>>): (items: seq<string>)
    requires forall i :: 0 <= i < |responses| ==> responses[i].Some?
    ensures |items| == |responses|
    ensures forall i :: 0 <= i < |items| ==> items[i] == Element(responses[i].value)
  {
    if responses == [] then [] else [Element(responses[0].value)] + Elements(responses[1..])
  }

  datatype Output =
    | StatusOnly(status: int, header: Header)         // an error status and no body
    | Items(items: seq<string>, header: Header)       // 200 and a JSON array
    | Unmarshallable(header: Header)                  // an element is not JSON: nothing is written
    | NilResponse                                     // nil dereference: the handler panics

  /** Header().Set over all values of the keys done so far: the last value of each remains. */
  function Overlay(w: Header, h: Header, done: set<string>): Header {
    map k | k in w.Keys + h.Keys * done && (k in w || h[k] != []) ::
      if k in h && k in done && h[k] != [] then [h[k][|h[k]| - 1]] else w[k]
  }

  /** Writing all values of one more key. */
  lemma OverlayStep(w: Header, h: Header, done: set<string>, k: string)
    requires k in h && k !in done
    ensures Overlay(w, h, done + {k})
            == if h[k] == [] then Overlay(w, h, done) else HeaderSet(Overlay(w, h, done), k, h[k][|h[k]| - 1])
  {
  }

  method SetAll(w: Header, k: string, values: seq<string>) returns (h: Header)
    ensures h == if values == [] then w else HeaderSet(w, k, values[|values| - 1])
  {
    h := w;
    for j := 0 to |values|
      invariant h == if j == 0 then w else HeaderSet(w, k, values[j - 1])
    {
      h := HeaderSet(h, k, values[j]);
    }
  }

  function HeaderOut(w: Header, sh: Shared): Header {
    var merged := if sh.header.None? then w else Overlay(w, sh.header.value, sh.header.value.Keys);
    HeaderSet(merged, CACHE_STATUS, CacheHitValue(|sh.responses|, sh.cacheHits))
  }

  function Collate(w: Header, validJson: string -> bool, sh: Shared): Output {
    if sh.status != OK then StatusOnly(sh.status, HeaderOut(w, sh))
    else if exists i :: 0 <= i < |sh.responses| && sh.responses[i].None? then NilResponse
    else
      var items := Elements(sh.responses);
      if forall i :: 0 <= i < |items| ==> validJson(items[i]) then Items(items, HeaderOut(w, sh))
      else Unmarshallable(HeaderOut(w, sh))
  }

  class BatchProcessor {
    const responses: array<Option<string>>
    var header: Option<Header>
    var cacheHits: nat
    var status: int

    ghost function View(): Shared
      reads this, responses
    {
      Shared(responses[..], header, cacheHits, status)
    }

    constructor (n: nat)
      ensures fresh(responses) && View() == NewShared(n)
    {
      responses := new Option<string>[n](_ => None);
      header, cacheHits, status := None, 0, OK;
      new;
      assert responses[..] == NewShared(n).responses;
    }

    method RecordResponse(i: nat, buf: string)
      requires i < responses.Length
      modifies responses
      ensures View() == SetResponse(old(View()), i, buf)
    {
      responses[i] := Some(buf);
    }

    method MergeHeaders(h: Header)
      modifies this
      ensures View() == ApplyHeaders(old(View()), h)
    {
      if header.None? {
        var clone := h;
        clone := clone - {CONTENT_LENGTH};
        clone := clone - {CACHE_STATUS};
        assert clone == Strip(h);
        header := Some(clone);
      }
      if IsCacheHitHeaders(h) {
        cacheHits := cacheHits + 1;
      }
    }

    method RecordStatus(code: int)
      modifies this
      ensures View() == SetErrStatus(old(View()), code)
    {
      status := code;
    }

    /** fakeResponseWriter.WriteHeader: only a status other than 200 is reported. */
    method WriteHeader(code: int)
      modifies this
      ensures View() == if code == OK then old(View()) else SetErrStatus(old(View()), code)
    {
      if code != OK {
        RecordStatus(code);
      }
    }

    method CopyHeaders(w: Header) returns (h: Header)
      ensures h == if header.None? then w else Overlay(w, header.value, header.value.Keys)
    {
      h := w;
      if header.Some? {
        var src := header.value;
        var left := src.Keys;
        while left != {}
          invariant left <= src.Keys && h == Overlay(w, src, src.Keys - left)
          decreases left
        {
          var k :| k in left;
          OverlayStep(w, src, src.Keys - left, k);
          h := SetAll(h, k, src[k]);
          assert src.Keys - (left - {k}) == src.Keys - left + {k};
          left := left - {k};
        }
        assert src.Keys - left == src.Keys;
      }
    }

    /** The part of RequestAndServe after Wait. */
    method Serve(w: Header, validJson: string -> bool) returns (out: Output)
      ensures out == Collate(w, validJson, View())
      ensures out.Items? ==> |out.items| == responses.Length
      ensures out.Items? ==> forall k :: 0 <= k < responses.Length ==>
        responses[k].Some? && out.items[k] == if responses[k].value == "" then "null" else responses[k].value
    {
      var h := CopyHeaders(w);
      h := HeaderSet(h, CACHE_STATUS, CacheHitValue(responses.Length, cacheHits));
      if status != OK {
        return StatusOnly(status, h);
      }
      var messages: seq<string> := [];
      var i := 0;
      while i < responses.Length
        invariant 0 <= i <= responses.Length && |messages| == i
        invariant forall k :: 0 <= k < i ==> responses[k].Some? && messages[k] == Element(responses[k].value)
      {
        if responses[i].None? {
          assert View().responses[i].None?;
          return NilResponse;
        }
        messages := messages + [Element(responses[i].value)];
        i := i + 1;
      }
      assert forall k :: 0 <= k < responses.Length ==> View().responses[k] == responses[k];
      assert messages == Elements(View().responses);
      if forall k :: 0 <= k < |messages| ==> validJson(messages[k]) {
        return Items(messages, h);
      }
      return Unmarshallable(h);
    }
  }

  // ------------------------------------------------------------- sub-requests

  /** One sub-request: a null entry of the batch carries no decoded request. */
  datatype SubRequest = SubRequest(decoded: Option<Request>, host: string)

  datatype BatchDecision = TooLarge(status: int) | Process(requests: seq<SubRequest>)

  /** Whether an entry can be marshalled and made into an HTTP request again. */
  type Builder = Option<Request> -> bool

  /** The position of every sub-request in the batch: increasing, and exactly the entries that can be built. */
  ghost predicate Positions(batch: seq<Option<Request>>, builds: Builder, at: seq<nat>) {
    && (forall i, j :: 0 <= i < j < |at| ==> at[i] < at[j])
    && (forall k :: k in at <==> 0 <= k < |batch| && builds(batch[k]))
  }

  /** CreateBatchProcessingMiddleware up to the hand-over: one sub-request for each entry that can be
      built, in order, or a refusal of the whole batch. */
  method SplitBatch(batch: seq<Option<Request>>, host: string, maximum: int, builds: Builder)
    returns (d: BatchDecision, ghost at: seq<nat>)
    ensures d.TooLarge? <==> |batch| > maximum
    ensures d.TooLarge? ==> d.status == ENTITY_TOO_LARGE
    ensures d.Process? ==> Positions(batch, builds, at) && |d.requests| == |at|
    ensures d.Process? ==>
      forall i :: 0 <= i < |at| ==> at[i] < |batch| && d.requests[i] == SubRequest(batch[at[i]], host)
  {
    at := [];
    if |batch| > maximum {
      return TooLarge(ENTITY_TOO_LARGE), at;
    }
    var reqs: seq<SubRequest> := [];
    for i := 0 to |batch|
      invariant |reqs| == |at| && forall k :: k in at <==> 0 <= k < i && builds(batch[k])
      invariant forall k, j :: 0 <= k < j < |at| ==> at[k] < at[j]
      invariant forall k :: 0 <= k < |at| ==> at[k] < i && reqs[k] == SubRequest(batch[at[k]], host)
    {
      if !builds(batch[i]) {
        continue;
      }
      reqs := reqs + [SubRequest(batch[i], host)];
      at := at + [i];
    }
    return Process(reqs), at;
  }

  /** When every entry can be built, sub-request i is entry i. */
  lemma {:induction false} AllBuilt(batch: seq<Option<Request>>, builds: Builder, at: seq<nat>, i: nat)
    requires Positions(batch, builds, at) && (forall k :: 0 <= k < |batch| ==> builds(batch[k])) && i < |batch|
    ensures i < |at| && at[i] == i
  {
    assert i in at;
    var j :| 0 <= j < |at| && at[j] == i;
    if i > 0 {
      AllBuilt(batch, builds, at, i - 1);
      assert i - 1 < j;
    }
  }
}
