# Verified model of the kava proxy service

The kava proxy service sits in front of Ethereum JSON-RPC nodes. It answers from a response
cache, splits batches into concurrent sub-requests, routes by host and block height, and
keeps request metrics in a Postgres table with one partition a day. This project models
those four parts in Dafny and proves what they do over every input, every interleaving and
every reachable state. `dafny verify dfyconfig.toml` checks all of it.

## What is proved

**Response cache** (`CacheStore`, `CacheKeys`, `ServiceCache`, `CachePipeline`,
`CacheTransparency`, `CacheRefinement`, `CacheExamples`). Any number of requests are in flight over one store;
each looks up, is served or forwarded, and may be stored, and between two of these steps
anything may happen to the others, including clock ticks, client errors and evictions.

- The cache is transparent (every response is what the backend would answer at that moment)
  *if and only if* no host ever takes back an answer that was once accepted for caching, for no
  request with the same key. This holds of every system and every hash function. Cache keys
  do not mention the host (`service/cachemdw/keys.go:41-68`), so the stability has to hold across
  hosts. A request may be served long after its lookup, so no duration in the configuration
  weakens the condition.
- Two requests share a key exactly if they agree on the method and on the digest. If no two
  requests that clients send collide, the condition is that the answer to each question is
  stable. A system that meets all hypotheses at once is given, and one whose requests collide
  and which is therefore not transparent.
- Under a stable backend that echoes id and version, the service with a cache refines a proxy
  that keeps no store at all.
- Without any condition on the backend or the hash function, hits carry the requester's own id and
  version, and the store only ever holds accepted replies to cacheable requests under their
  own keys.
- A read answers with a value exactly if it was the last one set for its key, was not deleted since,
  and its duration is not over.
- Lazy eviction cannot be observed by any sequence of operations under a clock that never goes
  back; a three-step sequence shows that the clock assumption is needed.

**Batches** (`BatchProcessor`, `BatchProtocol`, `BatchTheorems`). The goroutines, the WaitGroup, the
mutex-protected state and the panic recovery form a transition system.

- Under every schedule the i-th element of the array is what the handler wrote for request i.
- Which of the endings a batch has depends on the handlers alone: an error status exactly if some
  handler reported one; a nil dereference (`service/batchmdw/batch_processor.go:92`) exactly if
  none did and some handler panicked; otherwise the array.
- The WaitGroup counts the live goroutines in every state, each goroutine calls Done exactly once in
  every run that returns, every schedule ends, none gets stuck.
- Cache hits are conserved, and every other header comes from the first sub-request through
  `applyHeaders`. A header with several values keeps only the last one, because the copy uses `Set`
  (`service/batchmdw/batch_processor.go:73-77`).

**Metric partitions** (`Calendar`, `Partitions`, `PartitionCoverage`, `PartitionRuns`,
`PartitionExactness`).

- For every start and 1 to 28 days the generated periods are whole UTC days in increasing order,
  named after their calendar dates, across leap years and year ends.
- The documentation promises the next n days, today included
  (`architecture/DATABASE_PARTITIONING.md:69`). The code keeps this promise *if and only if* the
  days fit into the current month: the offset on `clients/database/postgres/partition.go:69` leaves out
  the first of the next month. With the offset one smaller the promise holds for all inputs.
- Over every history of any number of instances, with a failure at any database call, attached
  ranges stay disjoint and are never detached. Every finished run leaves each day for which none
  of its own calls failed in exactly one attached range, whatever failed for its other days,
  *if and only if* the database it all started from has no table attached under the name of an
  uncovered day. A database with a table attached for a day other than the one
  it is named after fails, because the code only asks whether the table is attached.

**Routing** (`Decode`, `BlockParams`, `IntervalMap`, `ShardConfig`, `ShardRoundTrip`, `HostRoundTrip`,
`Proxies`, `Routing`).

- The composed router equals the documented rule, in both directions, for every validated
  configuration and request. The rule is stated over the block parameter as the client wrote it.
- A proxy is found exactly for the hosts of the default map, *if and only if* the configuration
  passes the host check or leaves the pruning map unused. A found proxy is never nil and forwards
  to the route recorded in the metadata.
- On a sharded host, the shards get exactly the cacheable block-number requests up to the last end
  height; no block-number request sent to pruning is cacheable.
- The shard map and the host map encodings round-trip. A shard map text is accepted exactly if its
  entries spell good shards, and a host map has the last valid definition of every host.

Shared helpers are in `Text`, `Json` and `Wrappers`.

## Assumptions

Integers are unbounded; 64-bit limits are written out where the code checks them. Clock readings are
parameters. `url.Parse`, SHA-256, `encoding/json` and the integer reader of the cosmos math
library are function parameters, arbitrary unless a lemma says otherwise. Freedom from collisions
is assumed only where it is needed, and only of the requests at hand (`CacheKeys.NoCollision`,
`CacheTransparency.KeysUnambiguous`). The Postgres rules for ATTACH are part of the step machine. Requests are assumed to have enough params wherever
the code indexes them without a check (`decode/evm_rpc.go:325`); in the cache pipeline the other requests
abort. Heights are compared as encoded 64-bit integers, in which a negative numeral and a block
tag can coincide (`decode/evm_rpc.go:221-232`; `Decode.NegativeNumeralReadsAsTag`).

## Model

| member | source | states |
|---|---|---|
| `CacheTransparency.TransparentIffStable` | service/cachemdw/cache.go:160-258 | for every system with the cache on and valid durations, whatever its hash: every response of every interleaved run equals what the backend would answer then, if and only if no host ever takes back a settled answer for its key |
| `CacheTransparency.TransparentIffAnswersStable` | service/cachemdw/keys.go:41-68 | if the requests that clients send do not collide, transparency holds if and only if no host ever takes back a settled answer to the same question |
| `CacheExamples.HypothesesAreMet` | service/cachemdw/cache.go:160-258 | an enabled system on two hosts with two different cached questions and 32-byte digests meets all hypotheses of the cache theorems together |
| `CacheExamples.CollisionsAreNotTransparent` | service/cachemdw/keys.go:54-67 | with colliding digests a backend that never takes back an answer is not served transparently |
| `CacheTransparency.RunKeepsTransparency` | service/middleware.go:252-326 | over every run with a stable backend each logged response, hit or miss, carries the backend's current answer |
| `CacheTransparency.HitsCarryOwnIdentity` | service/cachemdw/cache.go:188-207 | in every run of every system, whatever its backend and hash, each hit carries the id and version of its own request |
| `CacheTransparency.StaleRunIsNotTransparent` | service/cachemdw/keys.go:41-68 | a backend that takes back a settled answer, on any host or for another request with the same key, is exposed by an explicit legal run of eight steps |
| `CacheTransparency.DisabledCacheIsTransparent` | service/cachemdw/is_cached_middleware.go:32-42 | with the cache off every run is transparent whatever the backend does |
| `CacheRefinement.StepRefines` | service/cachemdw/is_cached_middleware.go:28-77 | every step of the caching service is a step of a proxy without a store, or invisible to clients |
| `CacheRefinement.CacheRefinesProxy` | service/cachemdw/caching_middleware.go:21-71 | every interleaved run of the caching service shows clients a behaviour of the proxy without a store, bodies with id and version included |
| `CachePipeline.StepKeepsInv` | service/middleware.go:252-326 | every step keeps each stored entry, each found answer and each reply in flight traced to a backend answer |
| `CachePipeline.StoreInvariant` | service/cachemdw/cache.go:214-258 | in every reachable state of every system each entry is the accepted result of a cacheable request under its own key, never null, false or empty; under a key of eth_getTransactionByHash it names block hash, block number and index |
| `ServiceCache.AcceptedMeans` | service/cachemdw/response.go:48-141 | a reply is accepted exactly if it has no error and a result that is not null, false, an empty list or an empty string, and a transaction by hash has block hash, block number and index, and strings in its string fields |
| `ServiceCache.CacheableSameQuery` | service/cachemdw/cache.go:79-134 | cacheability depends on method and params alone |
| `ServiceCache.CacheableByMethod` | service/cachemdw/cache.go:121-133 | without a block number a request is cacheable exactly for the nine methods by block hash, by transaction hash or static |
| `ServiceCache.CacheableHasTtl` | service/cachemdw/cache.go:137-155 | every cacheable request has a duration, a valid one under a validated configuration |
| `ServiceCache.TtlByClass` | service/cachemdw/cache.go:137-155 | each of the four classes of methods has its own duration, and no other method has one |
| `ServiceCache.StoredAnswerIsFound` | service/cachemdw/cache.go:160-258 | what one request stored, another with the same key finds exactly until write time plus duration, with result and headers, under its own id and version |
| `ServiceCache.OthersAreKept` | service/cachemdw/cache.go:160-258 | storing and looking up leave every other live entry as it is |
| `ServiceCache.ValidTtlMeans` | config/validate.go:100-109 | a duration passes validation exactly if what is written with it is still readable after the instant of the write |
| `ServiceCache.FreshEntryIsLive` | config/validate.go:100-109 | a valid duration makes an entry readable at the instant it is written |
| `ServiceCache.GetHeadersToCache` | service/cachemdw/caching_middleware.go:94-107 | the cached headers are exactly the whitelisted ones with a non-empty value |
| `ServiceCache.HitHeaders` | service/middleware.go:266-278 | a hit is marked HIT and JSON whatever was cached; for other names what is set wins over what was cached, and that over the configured origin |
| `ServiceCache.AddCachedHeaders` | service/middleware.go:269-273 | every cached header fills in exactly where nothing was set |
| `ServiceCache.CacheService.GetCachedQueryResponse` | service/cachemdw/cache.go:160-208 | the stored result under the request's key, rebuilt with the request's id and version; expired entries are dropped |
| `ServiceCache.CacheService.CacheQueryResponse` | service/cachemdw/cache.go:214-258 | the store changes exactly when request and reply pass all checks, and each error is returned exactly when its check is the first to fail |
| `CacheKeys.KeyLayout` | service/cachemdw/keys.go:28-68 | the key spells prefix, item type, method, hash name and the hexadecimal digest of method followed by encoded params between colons |
| `CacheKeys.SameQuerySameKey` | service/cachemdw/keys.go:41-68 | requests that differ only in id or version share a key |
| `CacheKeys.KeysAgree` | service/cachemdw/keys.go:41-68 | under one prefix keys are equal if and only if methods and digests are, whatever the hash and even if methods contain colons |
| `CacheKeys.KeyInjective` | service/cachemdw/keys.go:28-68 | for colon-free prefixes and two requests whose encodings and digests do not collide, keys are equal if and only if prefix, method and params are |
| `CacheStore.InMemoryCache.Set` | clients/cache/inmemory.go:32-55 | the key holds the value until now plus the duration, or a calendar century for the sentinel, nothing else changes |
| `CacheStore.InMemoryCache.Get` | clients/cache/inmemory.go:58-71 | the live value or nothing; an expired entry is dropped |
| `CacheStore.InMemoryCache.GetAll` | clients/cache/inmemory.go:74-89 | exactly the entries live when the walk comes to them, with the clock read for each; exactly the others are dropped |
| `CacheStore.InMemoryCache.Delete` | clients/cache/inmemory.go:92-98 | the key is gone, nothing else changes |
| `CacheStore.ShadowStep` | clients/cache/inmemory.go:58-89 | one operation answers as a store that never evicts, and what it dropped had expired |
| `CacheStore.EvictionUnobservable` | clients/cache/inmemory.go:32-98 | for every sequence of operations under a nondecreasing clock, with a reading for each entry of GetAll, all results equal those of a store that never evicts |
| `CacheStore.ReadsAnswerLastWrites` | clients/cache/inmemory.go:32-98 | over every sequence of operations a Get answers with a value, and a GetAll lists it, exactly if it was the last one set for the key, was not deleted since, and its duration is not over |
| `CacheStore.FoundWhileItLasts` | clients/cache/inmemory.go:41-66 | a value is readable exactly until write time plus duration |
| `CacheStore.EvictionObservableIfClockGoesBack` | clients/cache/inmemory.go:63-67 | three operations with a clock that steps back tell the two stores apart |
| `CacheStore.IndefiniteEntriesLast` | clients/cache/inmemory.go:43-47 | an entry written with the sentinel duration stays readable for at least 36524 days |
| `BatchTheorems.BatchOrder` | service/batchmdw/batch_processor.go:43-103 | under every interleaving without panic or error status the output has one element for each request, and element i is byte for byte what the handler wrote for request i, or null if it wrote nothing |
| `BatchTheorems.Endings` | service/batchmdw/batch_processor.go:82-102 | error status iff some handler reported one, then the last in lock order; nil dereference iff none did and some handler panicked; the array iff neither and all elements are JSON, each what its handler wrote |
| `BatchTheorems.Accounting` | service/batchmdw/batch_processor.go:44-70 | in every reachable state the WaitGroup equals the number of live goroutines and cacheHits the number of hits past applyHeaders |
| `BatchTheorems.DoneOnce` | service/batchmdw/batch_processor.go:52-66 | no run has two Done calls of one goroutine, and every run that has returned has exactly one of each, by return or by recovered panic |
| `BatchTheorems.StepDecreases` | service/batchmdw/batch_processor.go:45-70 | every step strictly decreases a natural-number measure |
| `BatchTheorems.NeverStuck` | service/batchmdw/batch_processor.go:45-70 | until the batch has returned some step is possible, panics or not |
| `BatchTheorems.RunsTerminate` | service/batchmdw/batch_processor.go:43-70 | every schedule is bounded in length, and one that cannot go on has returned |
| `BatchTheorems.HeaderIsFirst` | service/batchmdw/batch_processor.go:115-133 | the combined header is the stripped header of the first goroutine through applyHeaders and never changes afterwards |
| `BatchTheorems.FinalHeader` | service/batchmdw/batch_processor.go:72-77 | each header of the response other than the cache status has the last value the first goroutine gave it, or what the writer had |
| `BatchTheorems.CacheStatus` | service/batchmdw/batch_processor.go:143-155 | for a non-empty batch HIT iff all hit, MISS iff none did, PARTIAL otherwise; panicked sub-requests are no hits |
| `BatchTheorems.HitMeans` | service/cachemdw/is_cached_middleware.go:90-92 | a sub-request hit exactly if the first value it last gave the cache status header is HIT |
| `BatchTheorems.AtReturn` | service/batchmdw/batch_processor.go:105-140 | at return the status differs from 200 iff some handler reported an error, and each slot holds its own handler's bytes or nil after a panic |
| `BatchProtocol.StepKeepsInv` | service/batchmdw/batch_processor.go:43-140 | every step of every goroutine keeps the account of slots, counts, header, status and main goroutine |
| `BatchProtocol.WrittenConcatenates` | service/batchmdw/fake_response_writer.go:34-38 | what a handler leaves in its buffer is the concatenation of its writes |
| `BatchProtocol.HeaderIsLastSet` | service/batchmdw/fake_response_writer.go:42-44 | a handler's header holds for every name the values of its last setting |
| `BatchProtocol.WaitKeepsInv` | service/batchmdw/batch_processor.go:70 | Wait is released only when all goroutines are over |
| `BatchProcessor.BatchProcessor.constructor` | service/batchmdw/batch_processor.go:29-39 | a nil slot for each request, no header, no hits, status 200 |
| `BatchProcessor.BatchProcessor.RecordResponse` | service/batchmdw/batch_processor.go:106-110 | slot i holds the buffer, everything else is unchanged |
| `BatchProcessor.BatchProcessor.MergeHeaders` | service/batchmdw/batch_processor.go:115-133 | the first header is kept without Content-Length and cache status, and a hit adds one |
| `BatchProcessor.BatchProcessor.WriteHeader` | service/batchmdw/fake_response_writer.go:48-52 | only a status other than 200 reaches the batch |
| `BatchProcessor.BatchProcessor.CopyHeaders` | service/batchmdw/batch_processor.go:72-77 | the writer's header overlaid with the last value of each combined header |
| `BatchProcessor.BatchProcessor.Serve` | service/batchmdw/batch_processor.go:72-103 | the collated output: status only, marshalling failure, nil dereference, or the array of the recorded bytes with null for an empty buffer |
| `BatchProcessor.SplitBatch` | service/batchmdw/batchmdw.go:42-79 | a batch over the limit is refused with 413; any other becomes one sub-request for exactly the entries that can be built, in order and with the host of the batch |
| `BatchProcessor.AllBuilt` | service/batchmdw/batchmdw.go:51-79 | when every entry can be built, sub-request i is entry i |
| `Calendar.DaysInMonthCorrect` | clients/database/postgres/partition.go:26-29 | day 0 of the following month is the last day of the month, in December and in leap years too |
| `Calendar.DayNumberOfDate` | clients/database/postgres/partition.go:41-43 | counting days and turning calendar pages agree for every day |
| `Calendar.CenturyIsLong` | clients/cache/inmemory.go:44-47 | adding a century moves an instant by at least 36524 days |
| `Calendar.CenturyDate` | clients/cache/inmemory.go:44-47 | a century later it is the same date and time of day, with 1 March for a missing 29 February |
| `Calendar.MonthsFollowTable` | clients/database/postgres/partition.go:26-29 | the days before each month follow the table of a common year, plus the leap day |
| `Partitions.GenerateMonth` | clients/database/postgres/partition.go:54-64 | the countdown loop yields consecutive midnight-aligned days with the day of the month counted up |
| `Partitions.PartitionsForPeriod` | clients/database/postgres/partition.go:34-93 | an error exactly for more than 28 days, otherwise the periods of the two months |
| `Partitions.PeriodIsADay` | clients/database/postgres/partition.go:54-89 | every generated period is one whole UTC day under the name of its own calendar date |
| `Partitions.NameSpellsDate` | clients/database/postgres/partition.go:56-81 | a table name splits at its underscores into the table, then year, month and day of the date in this order, in either format |
| `Partitions.NameDeterminesDay` | clients/database/postgres/partition.go:56-81 | a table name determines its date and which of the two formats it is in |
| `PartitionCoverage.PrefillShape` | clients/database/postgres/partition.go:31-93 | for 1 to 28 days: that many periods, midnight-aligned days named after their dates, increasing and disjoint, with distinct names, in the first format exactly for the current month |
| `PartitionCoverage.ExactCoverage` | clients/database/postgres/partition.go:66-90 | the covered days are today to month end plus a consecutive run from the first of the next month plus the offset |
| `PartitionCoverage.DocumentedIffWithinMonth` | architecture/DATABASE_PARTITIONING.md:69 | the next n days are covered if and only if they fit into the current month |
| `PartitionCoverage.SkippedDay` | clients/database/postgres/partition.go:69 | on a month crossing the day left out is the first of the next month |
| `PartitionCoverage.JuneFirstIsSkipped` | clients/database/postgres/partition.go:66-90 | on 20 May of any year, 21 days leave out 1 June |
| `PartitionCoverage.SmallerOffsetIsConsecutive` | architecture/DATABASE_PARTITIONING.md:69 | with the offset one smaller exactly the next n days are covered, for all inputs |
| `PartitionExactness.CoverageIffWellNamed` | clients/database/postgres/partition.go:97-260 | from a database of disjoint whole-day partitions, every finished run of every history leaves each day for which none of its own calls failed in exactly one attached range, if and only if no table is attached under the name of an uncovered day that runs ask for |
| `PartitionExactness.BlockedRunFinishes` | clients/database/postgres/partition.go:185-256 | a run that meets such a table finishes without an error and leaves the day uncovered |
| `PartitionExactness.MisattachedTableFails` | clients/database/postgres/partition.go:190-210 | a concrete database: one table attached for the day after the one it is named after |
| `PartitionRuns.DoneDayIsCovered` | clients/database/postgres/partition.go:97-260 | with any other instances, failures and unattached leftovers, a finished run leaves every day for which none of its own calls failed in exactly one attached range |
| `PartitionRuns.OnePeriodAtATime` | clients/database/postgres/partition.go:117-152 | a run goes through its periods one by one; a failed call ends the work on the current period and costs no other |
| `PartitionRuns.CleanRunCovers` | clients/database/postgres/partition.go:97-260 | a run without failed calls leaves every requested day in exactly one attached range |
| `PartitionRuns.HistoryKeepsInv` | clients/database/postgres/partition.go:108-257 | over every history attached ranges stay disjoint and day-aligned, and nothing is detached, moved or dropped |
| `PartitionRuns.StepKeepsInv` | clients/database/postgres/partition.go:115-256 | one database call of one instance, failing before or after taking effect or not at all, keeps the database and every run's account |
| `PartitionRuns.RefusedMeansCovered` | clients/database/postgres/partition.go:154-172 | when ATTACH refuses a table its day is covered already |
| `PartitionRuns.TableNameInjective` | clients/database/postgres/partition.go:56-81 | no two days and no two formats share a table name |
| `Decode.ScanMethods` | decode/evm_rpc.go:58-69 | the scan with a flag finds a method exactly if the list holds it |
| `Decode.IndexedMethodsAreTheListed` | decode/evm_rpc.go:195-206 | the methods with a block number parameter index are exactly the listed ones |
| `Decode.NoHistoryMethodsHaveNoBlockNumber` | decode/evm_rpc.go:129-162 | no method is both free of history and addressed by a block number |
| `BlockParams.CodeKeepsMeaning` | decode/evm_rpc.go:317-356 | parsing a block parameter to a code keeps its meaning: null and the five latest-like tags are the newest state, earliest is height 1, any other text is the height its numeral denotes, or nothing |
| `BlockParams.TagCodes` | decode/evm_rpc.go:221-232 | the code of every block tag |
| `BlockParams.BlockAtIsIndex` | decode/evm_rpc.go:195-206 | the position of the block parameter of each method |
| `IntervalMap.NewIntervalUrlMap` | config/intervalmap.go:19-30 | the endpoints are the keys of the map in strictly increasing order |
| `IntervalMap.LookupByBisection` | config/intervalmap.go:33-41 | bisection agrees with the linear scan for every number |
| `IntervalMap.LookupIsLeast` | config/intervalmap.go:32-41 | a lookup returns the least endpoint not below the number with its own route, and fails only beyond the last |
| `IntervalMap.ShardsPartitionHeights` | config/intervalmap.go:16-41 | every height from 1 to the last endpoint lies in exactly one interval, the one the lookup returns |
| `IntervalMap.LookupMonotone` | config/intervalmap.go:33-41 | the end height found never decreases with the height |
| `ShardConfig.ParseShards` | config/config.go:255-286 | the inner loop accepts exactly what the recursive reading accepts, with its routes, or stops with the same first error |
| `ShardConfig.ParseDefinition` | config/config.go:242-288 | one host definition is read to its host and its index, or to the same error |
| `ShardConfig.ParseRawShardMap` | config/config.go:234-292 | the parser returns the map read so far and the first error, as the reading function says |
| `ShardConfig.ReadShardsExactly` | config/config.go:255-286 | values are accepted exactly if they spell, pair by pair, numerals and URLs of shards with nonzero strictly increasing 64-bit end heights and non-empty routes, and yield these shards |
| `ShardConfig.FirstError` | config/config.go:257-283 | rejected values fail with the error of the first pair that cannot follow the good shards before it |
| `ShardConfig.ReadDefinitionExactly` | config/config.go:242-288 | an entry is accepted exactly if it is a host and values that spell good shards |
| `ShardConfig.ReadShardsGood` | config/config.go:257-286 | accepted end heights are nonzero 64-bit numbers that strictly increase, each with a non-empty route, one for each pair of values |
| `ShardConfig.ParseHosts` | config/config.go:206-228 | the loop yields the hosts that some entry defines as host and readable URL, each with the URL of the last such entry, and reports an error iff some entry is no definition |
| `ShardConfig.ParseRawHostMap` | config/config.go:195-229 | the map that the entries of the text define, last definition winning; no error iff the text is not empty and every entry is a definition, and the empty-map error iff the text is empty |
| `HostRoundTrip.HostMapRoundTrip` | config/config.go:195-229 | a host map of delimiter-free hosts and URLs, printed in whatever order, parses back to itself without error |
| `ShardRoundTrip.ParsePrinted` | architecture/PROXY_ROUTING.md:155-168 | every list of printable definitions prints to a text that parses to the map it denotes |
| `ShardRoundTrip.DocumentedEncoding` | architecture/PROXY_ROUTING.md:155-160 | the printed form of two shards for one host and one for another is the documented text |
| `ShardRoundTrip.MapRoundTrip` | config/config.go:234-292 | a shard map printed in whatever host order parses back to itself |
| `ShardRoundTrip.AcceptedExactly` | config/config.go:240-291 | a text is accepted exactly when each of its entries is a definition |
| `ShardRoundTrip.AcceptedIsProper` | config/config.go:234-292 | an accepted map has exactly the defined hosts, each with the proper shards of its last definition |
| `ShardRoundTrip.RejectedMap` | config/config.go:241-291 | a rejected text leaves the map of the definitions before the first bad entry, with the error of that entry |
| `Proxies.NewHostProxies` | service/proxy.go:81-93 | one proxy for each host, to the URL of that host |
| `Proxies.NewShardProxies` | service/shard.go:178-193 | one proxy for exactly the routes that occur in some shard, each to its own route |
| `Proxies.AddRoutes` | service/shard.go:182-184 | the inner loop adds exactly the routes of one host |
| `Proxies.NewProxies` | service/proxy.go:41-57 | the router that the two switches of the configuration ask for |
| `Proxies.ValidateDefaultContains` | config/validate.go:138-145 | no error iff every host has a default backend; an error names one that has none |
| `Routing.RoutingRefinement` | service/shard.go:30-176 | a request of a known host gets a backend if and only if the documented rule, stated over the block parameter itself, names it; other hosts are not found |
| `Routing.MeaningDecides` | service/shard.go:50-175 | null and latest-like tags go to pruning where the host has it, else to default, and are never cacheable; earliest and heights are cacheable and go to the shard that contains them, else to default; anything else goes to default and is not cacheable |
| `Routing.KnownHostsAreServed` | service/proxy.go:71-78 | a known host is always served by a non-nil proxy to the recorded route, as the rule says |
| `Routing.BaselineRoutes` | service/shard.go:30-76 | a request goes to pruning exactly when it asks for the newest state and its host has a pruning backend |
| `Routing.ShardLayerRoutes` | service/shard.go:118-176 | the shard layer changes only default choices, and only to the shard that contains the height |
| `Routing.AsksForOneThing` | service/shard.go:89-101 | no request asks both for the newest state and for a height |
| `Routing.MetadataAgrees` | service/shard.go:151-175 | however routers are nested, a found proxy is never nil and its target is the recorded route |
| `Routing.BuiltMetadataAgrees` | service/proxy.go:41-93 | the router built from any configuration, validated or not, never returns a found proxy that is nil or goes elsewhere than recorded |
| `Routing.TotalIffValidated` | config/validate.go:135-145 | found iff the host is in the default map, for all requests, if and only if pruning hosts have default backends or pruning is off |
| `Routing.ShardHoldsHeight` | service/shard.go:151-175 | the height of a request sent to a shard lies in (previous endpoint, recorded end height] |
| `Routing.ShardRequestsAreCacheable` | service/cachemdw/cache.go:94-119 | every request sent to a shard is a cacheable block-number request |
| `Routing.ShardsGetTheCacheable` | service/shard.go:138-175 | on a sharded host the shards get exactly the cacheable block-number requests up to the last end height |
| `Routing.PruningRequestsAreNotCacheable` | service/shard.go:50-75 | no block-number request sent to pruning is cacheable |
| `Routing.CacheableIffHeight` | service/cachemdw/cache.go:94-119 | a block-number request is cacheable exactly if its block parameter names a height, with earliest as 1 |
| `Routing.AcceptedShardsAreValid` | config/validate.go:129-133 | an accepted shard map text yields valid interval maps for every host |

## Left out

- Redis client, Postgres connection, migrations and queries: thin wrappers over libraries.
- HTTP server, reverse proxy internals, health and status handlers, logging: I/O; a reverse proxy is its target URL.
- Metric records and the after-proxy finalizer: field copying without a hard property.
- Request interceptors, default CORS values, client address extraction: single-branch logic.
- Environment reading and timers of the routines: the fields of the configuration are inputs. That one variable fills both routing switches (`config/config.go:355-358`) and that durations are scaled to seconds (`config/config.go:390-393`) is not modelled.
- Block number lookup by hash: a network call used for metrics.
- JSON bytes: documents are values, so compaction of array elements, number formatting and the case-insensitive matching of struct keys are not captured.
- Header names are taken in canonical form.
- Decoding failures of a stored entry and marshalling failures of a request: they appear as the failing lookup and offer steps of the pipeline.
- Go memory-model races, such as the delete under a read lock in `clients/cache/inmemory.go:59-65`: each cache operation is one atomic step.
- BatchProtocol.StepKeepsInv: handlers are finite scripts, so a handler that never returns, a panic with nil and a goroutine exit without panic are not covered.
- PartitionRuns.StepKeepsInv: Postgres locks and the 63-byte limit on identifiers are not modelled. The SELECT on a leftover table keeps its lock until the transaction ends, and the ATTACH that follows runs on another connection and needs an exclusive lock on the same table (`clients/database/postgres/partition.go:124`, `clients/database/postgres/partition.go:217`), so such a run can wait on its own transaction.
- PartitionRuns.CleanRunCovers: a leftover table is covered only if the run that meets it finishes.
- PartitionExactness.BlockedRunFinishes: assumes that no database call waits for a lock, so that a run left alone finishes even past leftover tables.
- Partitions.PartitionsForPeriod: the start is in UTC, where a day has 24 hours. Its third parameter is 1 in the code; 0 is the corrected offset.
- Proxies.NewShardProxies: shard proxies are keyed by URL value; the code keys them by address, one for each shard.
- Proxies.NewHostProxies: URLs are kept in printed form.
