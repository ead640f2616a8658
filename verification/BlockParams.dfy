/**
 What the block parameter of a request means, read off the JSON document itself
 (architecture/PROXY_ROUTING.md and the JSON-RPC conventions of Ethereum), and that the
 encoding of tags and numbers into one integer (decode/evm_rpc.go) keeps this meaning.
 */
module BlockParams {
  import opened Wrappers
  import opened Json
  import opened Decode

  /** A block parameter names the newest state, a height, or nothing the service can use. */
  datatype Meaning = Newest | Height(n: nat) | Neither

  predicate NewestTag(text: string) {
    text == "latest" || text == "pending" || text == "finalized" || text == "safe" || text == "empty"
  }

  /** Negative numerals down to -6 are read as the tags they encode. */
  function NumberMeaning(n: int): Meaning {
    if 1 <= n <= 0x7FFF_FFFF_FFFF_FFFF then Height(n)
    else if n == -3 then Height(1)
    else if -6 <= n <= -1 then Newest
    else Neither
  }

  function MeaningOf(readInt: IntReader, doc: Json): Meaning {
    match doc
    case Null => Newest
    case String(text) =>
      if NewestTag(text) then Newest
      else if text == "earliest" then Height(1)
      else (match readInt(text) case None => Neither case Some(n) => NumberMeaning(n))
    case _ => Neither
  }

  /** The block parameter of the method is at this position. */
  predicate BlockAt(name: string, i: int) {
    || (i == 0 && (|| name == "eth_getBlockByNumber"
                   || name == "eth_getBlockTransactionCountByNumber"
                   || name == "eth_getUncleCountByBlockNumber"
                   || name == "eth_getTransactionByBlockNumberAndIndex"))
    || (i == 1 && (|| name == "eth_getBalance"
                   || name == "eth_getTransactionCount"
                   || name == "eth_getCode"
                   || name == "eth_getUncleByBlockNumberAndIndex"
                   || name == "eth_call"))
    || (i == 2 && name == "eth_getStorageAt")
  }

  lemma BlockAtIsIndex(name: string, i: nat)
    ensures BlockAt(name, i) <==> BlockNumberParamIndex(name) == Some(i)
  {
  }

  /** The code of every tag, as a number. */
  lemma TagCodes(tag: string)
    ensures BlockTagCode(tag) ==
            if tag == "latest" then Some(-1) else if tag == "pending" then Some(-2)
            else if tag == "earliest" then Some(-3) else if tag == "finalized" then Some(-4)
            else if tag == "safe" then Some(-5) else if tag == "empty" then Some(-6) else None
  {
  }

  predicate LatestCode(code: int) {
    code == LATEST || code == PENDING || code == FINALIZED || code == SAFE || code == EMPTY
  }

  /** Parsing to a code keeps the meaning of the parameter: codes of the newest state come exactly from
      parameters that mean it, and so do heights, with the code of "earliest" for height 1. */
  lemma CodeKeepsMeaning(readInt: IntReader, r: Request, i: nat)
    requires ParamsLongEnough(r) && BlockAt(r.name, i)
    ensures r.params.Some? && i < |r.params.value|
    ensures var meaning, parsed := MeaningOf(readInt, r.params.value[i]), ParseBlockNumber(readInt, r);
            && (meaning == Newest <==> parsed.Ok? && LatestCode(parsed.value))
            && (forall h: nat :: meaning == Height(h) <==>
                  parsed.Ok? && if parsed.value == EARLIEST then h == 1 else parsed.value == h && h >= 1)
  {
    BlockAtIsIndex(r.name, i);
    var doc := r.params.value[i];
    if doc.String? {
      TagCodes(doc.text);
    }
  }
}
