/**
 Decoded JSON-RPC requests and the block height they name (decode/evm_rpc.go).
 Block tags and block numbers share one signed 64-bit code space.
 */
module Decode {
  import opened Wrappers
  import opened Json

  /** EVMRPCRequestEnvelope. A request without params decodes to a nil slice, here None. */
  datatype Request = Request(version: string, id: Json, name: string, params: Option<seq<Json>>)

  const CACHEABLE_BY_BLOCK_NUMBER: seq<string> := [
    "eth_getBalance",
    "eth_getStorageAt",
    "eth_getTransactionCount",
    "eth_getBlockTransactionCountByNumber",
    "eth_getUncleCountByBlockNumber",
    "eth_getCode",
    "eth_getBlockByNumber",
    "eth_getTransactionByBlockNumberAndIndex",
    "eth_getUncleByBlockNumberAndIndex",
    "eth_call"
  ]

  const CACHEABLE_BY_BLOCK_HASH: seq<string> := [
    "eth_getBlockTransactionCountByHash",
    "eth_getUncleCountByBlockHash",
    "eth_getBlockByHash",
    "eth_getUncleByBlockHashAndIndex",
    "eth_getTransactionByBlockHashAndIndex"
  ]

  const STATIC_METHODS: seq<string> := ["eth_chainId", "net_version"]

  const CACHEABLE_BY_TX_HASH: seq<string> := ["eth_getTransactionReceipt", "eth_getTransactionByHash"]

  const NO_HISTORY_METHODS: seq<string> := [
    "web3_clientVersion",
    "web3_sha3",
    "net_version",
    "net_listening",
    "net_peerCount",
    "eth_protocolVersion",
    "eth_syncing",
    "eth_coinbase",
    "eth_chainId",
    "eth_mining",
    "eth_hashrate",
    "eth_gasPrice",
    "eth_accounts",
    "eth_blockNumber",
    "eth_sign",
    "eth_signTransaction",
    "eth_sendTransaction",
    "eth_sendRawTransaction"
  ]

  predicate HasBlockNumberParam(name: string) { name in CACHEABLE_BY_BLOCK_NUMBER }

  predicate HasBlockHashParam(name: string) { name in CACHEABLE_BY_BLOCK_HASH }

  predicate IsStatic(name: string) { name in STATIC_METHODS }

  predicate HasTxHashParam(name: string) { name in CACHEABLE_BY_TX_HASH }

  predicate RequiresNoHistory(name: string) { name in NO_HISTORY_METHODS }

  /** The scan with a flag and an early exit that every method classifier runs over its list. */
  method ScanMethods(list: seq<string>, name: string) returns (found: bool)
    ensures found <==> name in list
  {
    found := false;
    var i := 0;
    while i < |list|
      invariant 0 <= i <= |list|
      invariant !found && name !in list[..i]
    {
      if name == list[i] {
        found := true;
        break;
      }
      i := i + 1;
    }
  }

  /** Position of the block number parameter (MethodNameToBlockNumberParamIndex). */
  function BlockNumberParamIndex(name: string): Option<nat> {
    if name == "eth_getBalance" then Some(1)
    else if name == "eth_getStorageAt" then Some(2)
    else if name == "eth_getTransactionCount" then Some(1)
    else if name == "eth_getBlockTransactionCountByNumber" then Some(0)
    else if name == "eth_getUncleCountByBlockNumber" then Some(0)
    else if name == "eth_getCode" then Some(1)
    else if name == "eth_getBlockByNumber" then Some(0)
    else if name == "eth_getTransactionByBlockNumberAndIndex" then Some(0)
    else if name == "eth_getUncleByBlockNumberAndIndex" then Some(1)
    else if name == "eth_call" then Some(1)
    else None
  }

  /** The classifier list and the index table name the same methods. */
  lemma IndexedMethodsAreTheListed(name: string)
    ensures HasBlockNumberParam(name) <==> BlockNumberParamIndex(name).Some?
  {
    var l := CACHEABLE_BY_BLOCK_NUMBER;
    assert HasBlockNumberParam(name) <==> exists i :: 0 <= i < |l| && l[i] == name;
    assert l[0] == "eth_getBalance" && l[1] == "eth_getStorageAt" && l[2] == "eth_getTransactionCount";
    assert l[3] == "eth_getBlockTransactionCountByNumber" && l[4] == "eth_getUncleCountByBlockNumber";
    assert l[5] == "eth_getCode" && l[6] == "eth_getBlockByNumber";
    assert l[7] == "eth_getTransactionByBlockNumberAndIndex" && l[8] == "eth_getUncleByBlockNumberAndIndex";
    assert l[9] == "eth_call";
  }

  const LATEST: int := -1
  const PENDING: int := -2
  const EARLIEST: int := -3
  const FINALIZED: int := -4
  const SAFE: int := -5
  const EMPTY: int := -6

  /** BlockTagToNumberCodec. */
  function BlockTagCode(tag: string): Option<int> {
    if tag == "latest" then Some(LATEST)
    else if tag == "pending" then Some(PENDING)
    else if tag == "earliest" then Some(EARLIEST)
    else if tag == "finalized" then Some(FINALIZED)
    else if tag == "safe" then Some(SAFE)
    else if tag == "empty" then Some(EMPTY)
    else None
  }

  const INT64_MIN: int := -0x8000_0000_0000_0000
  const INT64_MAX: int := 0x7FFF_FFFF_FFFF_FFFF

  /** The outside integer reader (cosmosmath.NewIntFromString), left abstract. */
  type IntReader = string -> Option<int>

  datatype ParseError = NoBlockNumberMethod | NotAString | NotAnInteger | OutOfRange

  /** blockParamToInt64. */
  function BlockParamToInt64(readInt: IntReader, s: string): (r: Result<int, ParseError>)
    ensures r.Ok? ==> INT64_MIN <= r.value <= INT64_MAX
  {
    match readInt(s)
    case None => Err(NotAnInteger)
    case Some(n) => if INT64_MIN <= n <= INT64_MAX then Ok(n) else Err(OutOfRange)
  }

  /** The index expression on the params slice does not panic. */
  predicate ParamsLongEnough(r: Request) {
    match BlockNumberParamIndex(r.name)
    case None => true
    case Some(i) => r.params.Some? && i < |r.params.value|
  }

  /** ParseBlockNumberFromParams: the encoded height of a request. */
  function ParseBlockNumber(readInt: IntReader, r: Request): (height: Result<int, ParseError>)
    requires ParamsLongEnough(r)
    ensures height.Ok? ==> BlockNumberParamIndex(r.name).Some? && INT64_MIN <= height.value <= INT64_MAX
  {
    match BlockNumberParamIndex(r.name)
    case None => Err(NoBlockNumberMethod)
    case Some(i) =>
      match r.params.value[i]
      case Null => Ok(EMPTY)
      case String(tag) =>
        (match BlockTagCode(tag)
         case Some(code) => Ok(code)
         case None => BlockParamToInt64(readInt, tag))
      case _ => Err(NotAString)
  }

  /** Tags have different codes, all negative, so a code that is not negative is never a tag. */
  lemma TagCodesAreDistinct(tag: string, other: string)
    requires BlockTagCode(tag).Some? && BlockTagCode(tag) == BlockTagCode(other)
    ensures tag == other && EMPTY <= BlockTagCode(tag).value < 0
  {
  }

  /** A height that is not negative comes from a numeral in the place of the method's block number,
      and every numeral there that is no tag and fits 64 bits is read as its number. */
  lemma HeightsAreNumerals(readInt: IntReader, r: Request, height: int)
    requires ParamsLongEnough(r) && 0 <= height
    ensures ParseBlockNumber(readInt, r) == Ok(height) <==>
            && BlockNumberParamIndex(r.name).Some?
            && height <= INT64_MAX
            && var doc := r.params.value[BlockNumberParamIndex(r.name).value];
               doc.String? && BlockTagCode(doc.text).None? && readInt(doc.text) == Some(height)
  {
    if BlockNumberParamIndex(r.name).Some? {
      var doc := r.params.value[BlockNumberParamIndex(r.name).value];
      if doc.String? && BlockTagCode(doc.text).Some? {
        TagCodesAreDistinct(doc.text, doc.text);
      }
    }
  }

  /** A negative code is ambiguous: the numeral of a tag's code is read exactly as the tag is. */
  lemma NegativeNumeralReadsAsTag(readInt: IntReader, r: Request, tag: string, numeral: string)
    requires BlockNumberParamIndex(r.name).Some? && ParamsLongEnough(r)
    requires BlockTagCode(tag).Some? && BlockTagCode(numeral).None? && readInt(numeral) == BlockTagCode(tag)
    ensures var i := BlockNumberParamIndex(r.name).value;
            var tagged := r.(params := Some(r.params.value[i := String(tag)]));
            var numbered := r.(params := Some(r.params.value[i := String(numeral)]));
            ParseBlockNumber(readInt, numbered) == ParseBlockNumber(readInt, tagged) == Ok(BlockTagCode(tag).value)
  {
    TagCodesAreDistinct(tag, tag);
  }

  /** No method is both answerable from the latest block and addressed by a block number. */
  lemma NoHistoryMethodsHaveNoBlockNumber(name: string)
    requires RequiresNoHistory(name)
    ensures !HasBlockNumberParam(name)
  {
  }
}
