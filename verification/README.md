# GhostProxy: a verified model of the proxy engine

GhostProxy is a sidecar proxy that adds caching, request coalescing, rate limiting and batched
logging to an HTTP API. This project models its in-memory engine in Dafny and proves what the
engine promises, over every input and every interleaving. `dafny verify dfyconfig.toml` checks it.

## How it is built

Each stateful component appears twice: as a function on values (the specification) and as a class
that updates its fields in place the way the JavaScript does. Every method of a class is proved
to take the object from the abstract state `v` to exactly the state the specification function
gives for `v`, and the theorems are about runs of the specification.

| component | specification | theorems | in place |
|---|---|---|---|
| LRU cache | `LruSpec` | `LruTheorems`, `LruExpiry` | `LruCache` (sentinel doubly linked list and hash map) |
| cache key | `CacheKey` | `CacheKey`, `KeyCollisions` | pure in the source too |
| coalescing | `Coalescing` | `CoalescingTheorems`, `CoalescingResults`, `CoalescingProgress`, `CoalescingCache` | `CacheManager` |
| token bucket and store | `BucketSpec`, `BucketStoreSpec` | `BucketTheorems`, `BucketExact`, `BucketStoreTheorems`, `BucketStoreBound`, `BucketTerms`, `ClientKeys` | `TokenBucket` |
| batch logger | `LoggerSpec` | `LoggerTheorems` | `BatchLogger` |
| route registry | `RouteSpec` | `RouteSpec` | `RouteRegistry` |
| the whole pipeline | `PipelineSpec` | `PipelineTheorems`, `PipelineBound`, `PipelineAnswers`, `PipelineCaching`, `PipelineProgress`, `PipelineHistory`, `PipelineComponents` | |

Time is an argument: every operation takes the clock reading (integer milliseconds) that the code
would obtain from `Date.now()`. Asynchronous code is cut at its awaits: one step is one stretch of
code between two awaits, and a run is any possible sequence of steps of any number of requests.
The upstream and the database decide freely when a promise settles and how. Tokens are exact reals.

## Where the code and its documentation differ

The model follows the code.

- A route whose `cache_ttl_ms` is NULL is documented as using the global default. The code passes
  `null`, which means no expiry (`RouteSpec.NullTtlIsDefaultIff`).
- A route with its cache disabled is cached all the same, and without expiry, because `cache_enabled`
  only chooses the lifetime. Every resolved response below 400 is stored
  (`PipelineCaching.FetchIsStoredIff`), and such a route can answer a message from the cache exactly
  if it is a GET (`PipelineCaching.HitsDespiteDisabledIff`). Nor does a `cache_ttl_ms` of 0 make
  every request a miss, as the troubleshooting notes suggest: it means no expiry too.
- Shutdown is documented as flushing the remaining buffer. `stopFlushing` returns at once when a
  flush is already running; `LoggerTheorems.StopCoversIff` says exactly when it covers everything.
- Route matching compares text, not path segments, so a forwarded path may lack its leading slash;
  `RouteSpec.ForwardedPathSplits` says exactly when, `RouteSpec.SlashCanBeMissing` shows it.
- Idle buckets are pruned after five minutes. That goes unnoticed exactly for limits that refill
  within 300.001 seconds (`BucketStoreTheorems.PruningInvisibleIff`). With slower limits a pruned
  client gets a full bucket early, and capacity + rate * elapsed is not kept: a burst, an idle
  period, a prune and another burst admit twice the capacity (`BucketStoreBound.TwoBursts`). It is
  kept in all runs exactly for limits that refill in that time (`BucketStoreBound.OwnRateKeptIff`);
  any other client is held to the pace capacity / 300.001 (`BucketStoreBound.SharedStoreWindowBound`).
- A changed route limit is documented to take effect within 15 seconds. A live bucket keeps the
  limit it was created with, so a new limit applies to a client only after its bucket has been idle
  for more than five minutes and pruned (`BucketTerms.LimitAppliesIff` and
  `BucketTerms.NewLimitAppliesIff`, and `BucketTerms.NewLimitIgnored` for a run that shows it).
- Rate limits are documented as per client and route, but the bucket's key is a text in which the
  client chooses the address. Two routes can share buckets exactly if one prefix ends in a colon
  and the other (`ClientKeys.PrefixesClashIff`).
- Requests with different queries can share a cache key. A query of single values is determined by
  its key exactly if at most one equals sign is written in it
  (`KeyCollisions.SingleValuesReadBackIff`). Nor do different paths guarantee different keys, since
  the client writes the Host header: under some hosts they clash exactly if one path ends in a colon
  and the other (`KeyCollisions.PathsClashIff`).
- Every proxied request is logged once, except that one refused for want of a token is logged twice
  if writing the 429 throws (`PipelineAnswers.LoggedOnceUnlessRefusalThrows`, and
  `PipelineAnswers.RefusalLoggedTwice` for a run that shows it).

## Model

| member | source | states |
|---|---|---|
| LruCache.LRUCache.constructor | server/src/cache/LRUCache.js:47-72 | a new cache is empty, its two sentinels linked to each other |
| LruCache.LRUCache.Create | server/src/cache/LRUCache.js:47-48 | construction fails exactly for a capacity below 1 |
| LruCache.LRUCache.Detach | server/src/cache/LRUCache.js:79-82 | relinking two neighbours leaves a coherent chain without the node, all else in order |
| LruCache.LRUCache.InsertAtHead | server/src/cache/LRUCache.js:88-93 | the chain gains the node right after the head sentinel, linked both ways |
| LruCache.LRUCache.MoveToHead | server/src/cache/LRUCache.js:100-103 | promotion moves one entry to the front and keeps the order of the others |
| LruCache.LRUCache.Remove | server/src/cache/LRUCache.js:134-135 | detaching a node and deleting its key removes exactly that entry from list and map |
| LruCache.LRUCache.EvictLRU | server/src/cache/LRUCache.js:109-115 | eviction drops the last entry and counts it, and does nothing to an empty cache |
| LruCache.LRUCache.Get | server/src/cache/LRUCache.js:124-144 | list, map, statistics and result are those of the recency-list specification on hit, miss and expiry |
| LruCache.LRUCache.Update | server/src/cache/LRUCache.js:160-166 | an existing key gets its new value and expiry in place and becomes most recent |
| LruCache.LRUCache.Insert | server/src/cache/LRUCache.js:172-174 | a new node enters map and list as most recent |
| LruCache.LRUCache.Put | server/src/cache/LRUCache.js:154-175 | the object follows the specification of put, evicting first when full, and never exceeds its capacity |
| LruCache.LRUCache.Delete | server/src/cache/LRUCache.js:183-189 | removes the entry if there is one and tells whether there was |
| LruCache.LRUCache.Clear | server/src/cache/LRUCache.js:194-198 | empties list and map and relinks the sentinels |
| LruCache.LRUCache.ValidIsWellFormed | server/src/cache/LRUCache.js:53-63 | the chain and map invariant implies distinct keys within capacity |
| LruCache.KeyedFind | server/src/cache/LRUCache.js:125-134 | every key of the map has its node in the chain, because both have the same size |
| LruSpec.RunKeepsWellFormed | server/src/cache/LRUCache.js:109-198 | over any run of timed calls no key occurs twice and the capacity is respected |
| LruSpec.WithoutAt | server/src/cache/LRUCache.js:79-82 | with distinct keys, removing a key is cutting out one position |
| LruTheorems.CapacityInclusion | server/src/cache/LRUCache.js:109-198 | the same timed calls on a smaller and a larger cache: the smaller list is a subsequence of the larger, and each of its hits is the same hit in the larger |
| LruTheorems.RunKeepsIncluded | server/src/cache/LRUCache.js:109-198 | inclusion is kept by every run, with the size gap bounded by the capacity gap and hits never fewer in the larger cache |
| LruTheorems.Residency | server/src/cache/LRUCache.js:105-175 | an entry just used stays, unchanged, while fewer than capacity distinct other keys are used; without deletions and expiries that is also necessary |
| LruTheorems.PutThenGet | server/src/cache/LRUCache.js:124-175 | within that many other keys and before expiry, get returns the value last put |
| LruExpiry.PutThenGetIff | server/src/cache/LRUCache.js:124-175 | within that many other keys, and through gets of its own, an entry is returned if and only if at most its positive lifetime has passed since the put; without one it always is |
| LruExpiry.ExpiredIsGone | server/src/cache/LRUCache.js:124-138 | a key a get did not return stays gone until it is put again |
| LruExpiry.DeletedIsGone | server/src/cache/LRUCache.js:183-189 | delete tells whether the key was there, takes it out until it is put again, and leaves other keys |
| LruExpiry.ClearedIsGone | server/src/cache/LRUCache.js:194-198 | after clear nothing stored before is returned |
| LruExpiry.StatsAreExact | server/src/cache/LRUCache.js:109-144 | over any run each counter is exactly the number of gets answered, gets not answered, puts of a new key into a full cache, and gets that found an entry past its lifetime |
| LruTheorems.StatsAccount | server/src/cache/LRUCache.js:65-71 | over any run, entries that entered are present, evicted, expired or dropped on request, and every get is one hit or one miss |
| CacheKey.KeyIsCanonical | server/src/cache/cacheManager.js:52-71 | requests that differ only in the order of their query parameters share a key |
| CacheKey.BeforeIsDictionary | server/src/cache/cacheManager.js:65-66 | the order in which parameters are written is the dictionary's |
| CacheKey.KeyIsInjective | server/src/cache/cacheManager.js:64-72 | equal keys mean equal method, host, path and query, for texts free of the separators; for other hosts see `KeyCollisions.TargetsClashIff` |
| KeyCollisions.SingleValuesReadBackIff | server/src/cache/cacheManager.js:64-72 | among queries of single values the key determines the query if and only if at most one equals sign is written in it |
| KeyCollisions.AnyValuesReadBackIff | server/src/cache/cacheManager.js:64-72 | among all query objects the key determines the query if and only if it is empty |
| KeyCollisions.TargetsClashIff | server/src/cache/cacheManager.js:70-71 | with one method, two requests that differ in path or query share a key under some hosts if and only if one target ends in a colon and the other |
| KeyCollisions.PathsClashIff | server/src/cache/cacheManager.js:70-71 | the same for two paths with one query, on the paths alone |
| KeyCollisions.KeyIsInjectiveUnlessNested | server/src/cache/cacheManager.js:64-72 | whatever the hosts, equal keys mean equal requests unless their targets are nested so |
| KeyCollisions.HostCollides | server/src/cache/cacheManager.js:70-71 | a Host header with a slash makes two paths share a key |
| KeyCollisions.AmpersandCollides | server/src/cache/cacheManager.js:65-68 | an ampersand inside a value makes two different queries share a key |
| KeyCollisions.RepeatedParameterCollides | server/src/cache/cacheManager.js:65-68 | a repeated parameter and one value with a comma share a key |
| KeyCollisions.MissingHostCollides | server/src/cache/cacheManager.js:70 | a missing Host header counts as an empty one |
| KeyCollisions.NestedCollides | server/src/cache/cacheManager.js:65-68 | every nested parameter is written "[object Object]" |
| CacheManager.CacheManager.GetOrFetch | server/src/cache/cacheManager.js:138-172 | up to its first await, the call takes exactly the arrival step: direct, hit, attach or fetch |
| CacheManager.CacheManager.Settle | server/src/proxy/interceptor.js:16-32 | settling a promise does exactly one unit of the outstanding work and touches nothing else |
| CacheManager.CacheManager.Resume | server/src/cache/cacheManager.js:175-190 | from its await to its end, the call takes exactly the resumption step: store below 400, delete from inflight, return |
| CoalescingTheorems.RunKeepsInv | server/src/cache/cacheManager.js:138-191 | the protocol, cache and provenance invariants hold in every reachable state |
| CoalescingResults.OneUnfinishedFetchPerKey | server/src/cache/cacheManager.js:33-36 | at most one fetch per key is pending |
| CoalescingResults.InflightIsOneFetcher | server/src/cache/cacheManager.js:154-172 | a key is in inflight exactly while one designated fetcher is suspended on that promise, and is then not in the cache |
| CoalescingResults.FinallyDeletesOwnEntry | server/src/cache/cacheManager.js:183-188 | the finally block deletes the entry its own call made and no other |
| CoalescingResults.SingleFlight | server/src/cache/cacheManager.js:149-172 | until the fetcher resumes, any number of calls for the key start no further fetch and end with the outcome of that one |
| CoalescingResults.CoalescedOutcome | server/src/cache/cacheManager.js:156-161 | a call that arrives while its key is registered ends with the outcome of that very promise |
| CoalescingResults.ResponseProvenance | server/src/cache/cacheManager.js:146-190 | every returned response is one that an upstream fetch for the same key produced; a failure is that fetch's rejection |
| CoalescingResults.HitIsFresh | server/src/cache/cacheManager.js:149-182 | a hit repeats a response below 400, fetched for the same key, no older than the lifetime it was stored with |
| CoalescingResults.FetcherStoresIff | server/src/cache/cacheManager.js:175-182 | a fetcher leaves its key in the cache if and only if its fetch resolved below 400, with that response and the lifetime asked for |
| CoalescingCache.CacheIsRun | server/src/cache/cacheManager.js:149-182 | after any run the cache is the LRU cache after exactly one get per cacheable call and one put per fetcher that resumed below 400 |
| CoalescingCache.StoredIsServedIff | server/src/cache/cacheManager.js:149-182 | a stored response answers the next call for its key if and only if its lifetime has not run out, given fewer than capacity distinct other keys since; else that call fetches |
| CoalescingCache.SettledIsReturned | server/src/cache/cacheManager.js:156-190 | every call suspended on a promise ends with exactly what the upstream settled it with |
| CoalescingResults.HitsRepeatLastStored | server/src/cache/cacheManager.js:149-182 | once a response is stored, every hit on its key returns it until another is stored for that key |
| CoalescingProgress.StepDoesWork | server/src/cache/cacheManager.js:156-190 | each settlement or resumption reduces the outstanding work by one |
| CoalescingProgress.NeverStuck | server/src/cache/cacheManager.js:156-190 | while calls or fetches are outstanding, some settlement or resumption is possible |
| CoalescingProgress.DrainsCompletely | server/src/cache/cacheManager.js:156-190 | without arrivals every run is bounded, and a run that cannot continue has answered every call and emptied inflight |
| CoalescingResults.RejectionFailsExactlyItsOwn | server/src/cache/cacheManager.js:174-188 | a suspended call fails if and only if the very promise it is suspended on is rejected, and else returns its response |
| CoalescingResults.NoPoisoning | server/src/cache/cacheManager.js:183-188 | after the fetcher resumes, the next call for the key is a hit or starts a fresh fetch |
| TokenBucket.TokenBucket.constructor | server/src/ratelimiter/tokenBucket.js:46-52 | a new bucket is full |
| TokenBucket.TokenBucket.Consume | server/src/ratelimiter/tokenBucket.js:60-112 | the in-place computation, through seconds and back, is refill-then-spend with the refill time set to the clock |
| TokenBucket.BucketStore.GetBucket | server/src/ratelimiter/tokenBucket.js:143-148 | an existing bucket is returned as it is, a missing one is created full |
| TokenBucket.BucketStore.Prune | server/src/ratelimiter/tokenBucket.js:154-165 | deleting while walking the map leaves exactly the buckets that are not stale |
| TokenBucket.BucketStore.ConsumeToken | server/src/ratelimiter/tokenBucket.js:186-194 | changes only the bucket of the client and route, as the specification says |
| BucketTheorems.ConsumeKeepsBounds | server/src/ratelimiter/tokenBucket.js:64-93 | tokens stay between 0 and the capacity on any clock |
| BucketTheorems.WindowBound | server/src/ratelimiter/tokenBucket.js:60-99 | any stretch of calls, on any clock, admits at most capacity plus what the refill time produced |
| BucketTheorems.WindowBoundByClock | server/src/ratelimiter/tokenBucket.js:15-18 | on a clock that does not go back: at most capacity + rate * elapsed |
| BucketTheorems.BurstIsExact | server/test/ratelimiter.test.js:78-79 | of simultaneous calls exactly as many are admitted as the bucket holds whole tokens; a fresh bucket admits exactly its capacity |
| BucketTheorems.RemainingIsExact | server/src/ratelimiter/tokenBucket.js:92-110 | the reported remaining count is exactly how many more calls at that instant are admitted |
| BucketExact.AdmittedIff | server/src/ratelimiter/tokenBucket.js:60-99 | on a clock that does not go back a call is admitted if and only if, with those admitted before, it keeps every stretch that ends with it within capacity + rate * elapsed |
| BucketExact.ConformingIsAdmitted | server/src/ratelimiter/tokenBucket.js:15-18 | any choice of calls that keeps to capacity + rate * elapsed in every stretch is no more, in any prefix, than the bucket admits |
| BucketExact.OldReadingAddsNothing | server/src/ratelimiter/tokenBucket.js:63-74 | a clock reading not past the last refill adds nothing and keeps the refill time |
| BucketExact.ForeverIsExact | server/src/ratelimiter/tokenBucket.js:101-111 | a rejection waits forever exactly at rate 0, and then no later call is admitted |
| BucketTheorems.GreedyIsOptimal | server/src/ratelimiter/tokenBucket.js:60-112 | no policy that spends only tokens it has admits more, in any prefix of any run |
| BucketTheorems.RetryIsExact | server/src/ratelimiter/tokenBucket.js:101-111 | after a rejection every call before the stated deadline is rejected with the same deadline, and the next is admitted if and only if it is not before it |
| BucketTheorems.RetryAfterHeaderSuffices | server/src/proxy/interceptor.js:59-61 | waiting the header's whole seconds suffices |
| BucketExact.RetryAfterHeaderIsLeast | server/src/proxy/interceptor.js:59-61 | the header's seconds are the least number of whole seconds that suffices |
| BucketStoreTheorems.StaleIsFull | server/src/ratelimiter/tokenBucket.js:114-116 | a bucket idle for more than five minutes has refilled completely, if its limit refills in that time |
| BucketStoreTheorems.PruningIsInvisible | server/src/ratelimiter/tokenBucket.js:143-165 | with limits that refill within the idle time, prunes at any points change no answer |
| BucketStoreTheorems.PruningInvisibleIff | server/src/ratelimiter/tokenBucket.js:114-165 | for a limit, no run shows its prunes if and only if rate * 300.001 reaches the capacity |
| BucketStoreTheorems.KeysAreIsolated | server/src/ratelimiter/tokenBucket.js:143-148 | one key's answers depend on its own calls and the prunes only |
| BucketStoreTheorems.OwnBucket | server/src/ratelimiter/tokenBucket.js:120-148 | without pruning, each key is answered as by one bucket of its own, on any clock |
| BucketStoreTheorems.OwnBucketDespitePruning | server/src/ratelimiter/tokenBucket.js:120-165 | the same with pruning, if this key's own limit refills within the idle time |
| BucketStoreBound.SharedStoreWindowBound | server/src/ratelimiter/tokenBucket.js:120-194 | per key, in the shared and pruned store, for every limit, even one that changes within a greater one: at most capacity + pace * elapsed in any stretch, the pace being the rate or, with prunes, capacity / 300.001 if more |
| BucketStoreBound.OwnRateKeptIff | server/src/ratelimiter/tokenBucket.js:15-18 | with pruning, capacity + rate * elapsed bounds every stretch of every run if and only if rate * 300.001 reaches the capacity |
| BucketStoreBound.TwoBursts | server/src/ratelimiter/tokenBucket.js:143-165 | a run that admits twice the capacity with one idle period in between, whatever the rate |
| BucketTerms.RunKeepsTerms | server/src/ratelimiter/tokenBucket.js:143-165 | over any run the store holds a key, with which limit and last use, exactly as the asks and late prunes for it say |
| BucketTerms.LimitAppliesIff | server/src/ratelimiter/tokenBucket.js:143-165 | over any run an ask is answered under its own limit if and only if the asks and late prunes before it leave nothing in force, or that same limit |
| BucketTerms.FirstLimitApplies | server/src/ratelimiter/tokenBucket.js:144-146 | a key never asked for is answered under the limit it is asked with |
| BucketTerms.NewLimitAppliesIff | server/src/ratelimiter/tokenBucket.js:143-165 | an ask is answered under a new limit if and only if a prune came more than five minutes after the previous ask, or the limit was in force at that ask already |
| BucketTerms.NewLimitIgnored | server/README.md:422 | a run in which a raised limit is not in effect 20 seconds later |
| ClientKeys.PrefixesClashIff | server/src/ratelimiter/tokenBucket.js:187 | clients of two different routes can share a bucket if and only if one prefix ends in a colon and the other |
| ClientKeys.OnePrefixIsInjective | server/src/ratelimiter/tokenBucket.js:187 | under one route different addresses have different buckets |
| ClientKeys.ClientKeyInjective | server/src/ratelimiter/tokenBucket.js:187 | address and route can be read back from the key when addresses have no slash |
| ClientKeys.ClientKeyCollision | server/src/ratelimiter/tokenBucket.js:187 | with a slash in the address two clients share a key |
| BatchLogger.BatchLogger.Log | server/src/logger/batchLogger.js:10-13 | adds exactly the entry at the end of all that the logger answers for, and starts a flush when the buffer is full |
| BatchLogger.BatchLogger.Flush | server/src/logger/batchLogger.js:15-45 | swaps the buffer out and sends it, unless a flush is running or there is nothing to send; no entry is lost or moved |
| BatchLogger.BatchLogger.DecideInsert | server/src/logger/batchLogger.js:38-45 | whether the database stores the batch or refuses it, the logger answers for the same entries in the same order |
| BatchLogger.BatchLogger.FlushResume | server/src/logger/batchLogger.js:48-53 | a refused batch returns to the front of the buffer, so that the order of all entries is kept; the flush is over |
| BatchLogger.BatchLogger.StopFlushing | server/src/logger/batchLogger.js:65-71 | disarms the timer and flushes, keeping all entries in order |
| LoggerTheorems.Conservation | server/src/logger/batchLogger.js:10-54 | table, batch under way and buffer are exactly the logged entries in order, and at most one batch is under way |
| LoggerTheorems.LogNeverOverfills | server/src/logger/batchLogger.js:10-13 | after a log call a flush is running or the buffer is below its maximum |
| LoggerTheorems.FlushDelivers | server/src/logger/batchLogger.js:10-54 | a flush that succeeds, whichever call started it, leaves in the table exactly what was logged up to its start; one that fails restores the order |
| LoggerTheorems.TickAndStopSendAll | server/src/logger/batchLogger.js:15-71 | in every reachable state a tick, and stopFlushing, send all that is buffered if anything is and no flush is under way, and otherwise send nothing |
| LoggerTheorems.LogSendsIff | server/src/logger/batchLogger.js:10-20 | a log call sends the buffer exactly if the entry fills it and no flush is under way |
| LoggerTheorems.TicksWhileArmed | server/src/logger/batchLogger.js:56-71 | over any run the timer can tick exactly while startFlushing has been called and stopFlushing not since, and a tick sends the buffer unless a flush is under way |
| LoggerTheorems.StopCoversIff | server/src/logger/batchLogger.js:65-71 | stopFlushing covers every logged entry if and only if no flush is running at the call or nothing is left to send |
| LoggerTheorems.StopCanMissEntries | server/src/logger/batchLogger.js:65-71 | a run in which stopFlushing returns with two entries unstored |
| RouteSpec.SortIsStable | server/src/proxy/routeRegistry.js:39 | the sort yields the same rows, longest prefix first, and keeps the order of rows of one length |
| RouteSpec.BuildFinds | server/src/proxy/routeRegistry.js:41-44 | the ordered map holds, under each prefix, the last row with it |
| RouteSpec.LongestPrefixWins | server/src/proxy/routeRegistry.js:16-19 | the first match of the scan is the longest-prefix match, the last such row, or none if no row matches |
| RouteSpec.MatchIgnoresOrder | server/src/proxy/routeRegistry.js:39-65 | with distinct prefixes the answer does not depend on the order of the rows |
| RouteRegistry.RouteRegistry.LoadRoutes | server/src/proxy/routeRegistry.js:33-54 | the loop builds the map of the fetched rows and swaps it in; a failed query keeps the old one |
| RouteRegistry.RouteRegistry.MatchRoute | server/src/proxy/routeRegistry.js:56-65 | the scan returns the longest-prefix match on the rows last loaded |
| RouteSpec.ForwardedPathSplits | server/src/proxy/interceptor.js:101 | the path is the prefix followed by the forwarded rest, which is "/" for an exact match and starts with a slash exactly at a segment boundary |
| RouteSpec.SlashCanBeMissing | server/src/proxy/interceptor.js:101 | a match inside a segment whose forwarded path has no leading slash |
| RouteSpec.NullTtlIsDefaultIff | server/src/cache/LRUCache.js:155-156 | a NULL lifetime means no expiry, and so the default only when there is none |
| PipelineTheorems.EveryExchangeLogged | server/src/proxy/interceptor.js:43-177 | at every moment the logger answers for exactly the entries each answered exchange ended with, in order, and for none of the others |
| PipelineAnswers.LoggedOnceUnlessRefusalThrows | server/src/proxy/interceptor.js:56-177 | an answered exchange has exactly one entry, or two if it was refused a token and writing the 429 threw |
| PipelineAnswers.EntriesAreExact | server/src/proxy/interceptor.js:64-173 | each entry field by field: own number, prefix and path, the status, and the cache and rate-limit marks |
| PipelineAnswers.RefusalLoggedTwice | server/src/proxy/interceptor.js:56-176 | a run in which a refused exchange is logged twice |
| PipelineBound.FetchesArePaid | server/src/proxy/interceptor.js:53-126 | upstream fetches map one-to-one into tokens granted |
| PipelineBound.FetchesWithinTokens | server/src/proxy/interceptor.js:53-126 | in every run a client's fetches never exceed the tokens its bucket gave out |
| PipelineBound.UpstreamBound | server/src/proxy/interceptor.js:53-126 | hence at most capacity + pace * elapsed upstream calls for one ticket, whatever the other tickets, their limits and the prunes |
| PipelineHistory.ExchangeIsRequest | server/src/proxy/interceptor.js:43-54 | exchange n is request n, on the longest-prefix match in the rows last loaded before it, with its own client's and route's ticket |
| PipelineHistory.TicketsAreOwn | server/src/proxy/interceptor.js:52-63 | in every run tickets are address, colon and prefix; the limiter is asked exactly for them, in order, with the routes' own limits; and each ticket's requests are told what a store of their own asks and the prunes would answer |
| PipelineHistory.LimiterDoesItsHistory | server/src/ratelimiter/tokenBucket.js:130-194 | the limiter does what the events say in their order, and its buckets are those of a store that does just that |
| PipelineHistory.ClientBound | server/src/proxy/interceptor.js:52-126 | for one address and prefix: at most capacity + pace * elapsed upstream calls between its first and its latest request |
| PipelineComponents.RequestGoes | server/src/proxy/interceptor.js:43-123 | a new request is passed on, refused, left waiting for its body, answered 502 or brought to getOrFetch, each exactly when |
| PipelineComponents.BodyGoes | server/src/proxy/interceptor.js:86-126 | once its body is read an exchange is answered 502 if the URL does not parse, and else calls getOrFetch |
| PipelineComponents.ResponseGoes | server/src/proxy/interceptor.js:128-176 | an exchange whose call returned is answered after that call, and falls back to 502 exactly if the call failed or its response could not be sent |
| PipelineComponents.CoalescerRuns | server/src/proxy/interceptor.js:122-126 | the coalescer's part of any run is a run of its own, of the exchanges' calls at the times of their steps |
| PipelineComponents.LoggerRuns | server/src/proxy/interceptor.js:64-173 | the logger's part of any run is a run of its own, of the entries of each exchange as it ends |
| PipelineAnswers.AnswersAreExact | server/src/proxy/interceptor.js:52-176 | 429 if and only if refused and written; the proxy's own 502 if and only if writing threw, or an admitted request's URL does not parse or its fetch was rejected; else exactly the response of its own getOrFetch call, logged with its status and cache state |
| PipelineProgress.EveryExchangeIsAnswered | server/src/proxy/interceptor.js:43-177 | without new requests only boundedly many steps carry exchanges on, and when none can, every matched exchange has been answered and nothing is in flight |
| PipelineCaching.FetchIsStoredIff | server/src/proxy/interceptor.js:122-126 | a fetch is stored if and only if it resolved below 400, whether or not the route's cache is enabled; with the cache disabled, or the lifetime NULL or 0, the entry never expires |
| PipelineCaching.HitsDespiteDisabledIff | server/src/proxy/interceptor.js:122-126 | over all runs a route with its cache disabled can answer a message from cache or another's fetch if and only if it is a GET |

## Left out

- Express wiring, HTTP transport, timeouts, response headers and body collection: a fetch is a promise that settles with a status and an opaque payload or rejects, and writing a response either succeeds or throws.
- The interceptor has no class: it keeps no variables beyond one call, so its steps are functions on the joined state of the components, whose classes are proved against the same specification functions.
- Writing a response either succeeds or throws before its headers are out; a throw between headers and body, and one while writing the 502 itself, are not modelled.
- LoggerTheorems.Conservation: takes each INSERT as all or nothing and reported truthfully, so a commit whose acknowledgement is lost is not covered.
- BucketStoreTheorems.PruningIsInvisible: requires a clock that does not go back and one limit per key over the run; `BucketTerms` says which limit applies when it changes.
- Floating-point rounding of tokens, and the two clock readings of a bucket's constructor, which are taken as one.
- UTF-16: texts are sequences of characters, so lengths and the sort order are those of characters rather than of UTF-16 code units.
- `getCachedResponse` and `setCachedResponse`, which nothing calls; `getMetrics`, `getClientIp`, console output and the arming of the reload and prune timers.
- Overlapping calls of `loadRoutes`, which may finish out of order; each match sees one complete registry.
- MySQL, migrations, analytics, authentication, API keys and the user interface.
