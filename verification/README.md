# TurbineProxy: a verified model of its stateful core

TurbineProxy sits between SQL clients and MySQL or PostgreSQL servers. Behind its I/O runs a set of small
state machines. This project models them in Dafny and proves what they guarantee over every input and every
run: the query fingerprinter, the readers of MySQL result sets, the circuit breaker and the failover logic of
the health checkers, the query cache, the connection pool, the replica scheduler, the checkout counters, and the
two analytics stores.

`dafny verify dfyconfig.toml` checks everything.

## How the model is laid out

| file | models |
|---|---|
| `Fingerprint.dfy` | `src/proxy/fingerprint.rs` |
| `MysqlText.dfy` | the packet readers of `src/proxy/group_replication.rs` and `src/proxy/health.rs` |
| `CircuitBreaker.dfy` | `src/proxy/circuit_breaker.rs` |
| `Failover.dfy` | the primary checks of `src/proxy/health.rs` and `src/proxy/pg_health.rs` |
| `QueryCache.dfy` | `src/proxy/cache.rs` |
| `ConnectionPool.dfy` | `ConnectionPool` of `src/proxy/pool.rs` |
| `ReplicaScheduler.dfy` | replica selection in `BackendPool` of `src/proxy/pool.rs` |
| `Checkouts.dfy` | primary routing, checkout counters and whose connections are idle where, in `BackendPool` of `src/proxy/pool.rs` |
| `Timeseries.dfy` | `TimeseriesStore` of `src/analytics/timeseries.rs` |
| `QueryStats.dfy` | `src/analytics/collector.rs` and `src/analytics/storage.rs` |
| `Prelude.dfy`, `Sums.dfy` | shared shapes and order-free sums |

Code that updates fields is a class whose methods state the whole new state as a function of the old one; loops
are loops with invariants. The theorems are lemmas about those functions, over histories of events. The clock,
the outcome of connecting, the answers of the health probes and the iteration order of hash maps are inputs.

## What the code turned out to do

These are results about the code as it is, each with its exact condition and, where a promise fails, a run that
shows it.

- Fingerprinting is idempotent exactly when every non-ASCII byte stands inside quotes, because a byte from 128 up
  is pushed as two bytes each time (`Fingerprint.IdempotentIff`, `Fingerprint.AccentIsNotStable`).
- Quoted literals, with any escaped or doubled quotes in them, are hidden after a prefix exactly when the scan of
  the prefix does not end inside quotes; nothing is needed of the text after them. A prefix that ends in a pending
  backslash escape counts as not inside quotes: the escape takes the opening quote, and the literal stays hidden
  (`Fingerprint.HidesLiteralsIff`, `Fingerprint.BodyIff`).
- A NULL lag column counts as a lag of 0, so a replica whose applier is stopped looks up to date
  (`MysqlText.LagIs`).
- The breaker's comments promise one probe when half-open. Every call is let through from the end of the recovery
  time to the next recorded outcome (`CircuitBreaker.ProbesUntilOutcome`, `CircuitBreaker.HalfOpenIff`,
  `CircuitBreaker.TwoProbes`).
- The flap counter rises only when the previous attempt found no healthy replica, because clearing a failover
  forgets its trigger time. The field comment in `src/proxy/pool.rs` says it counts failovers cleared and
  triggered again; none of those is counted (`Failover.FlapIff`, `Failover.ClearedFailoverIsNoFlap`,
  `Failover.ReTriggeredUncounted`).
- `recovery_checks` counts good checks since the promotion. Its field comment says consecutive ones, which is so
  exactly as long as no failed check followed a good one (`Failover.RecoveryIsConsecutiveIff`,
  `Failover.ClearedByOneGoodCheck`).
- Storing a cached query again loses another entry exactly at capacity, when some other entry was used less
  recently (`QueryCache.RefreshEvictsIff`, `QueryCache.RefreshDropsOther`).
- `max_connections` does not bound the connections checked out by overlapping sessions, unless it is 0 and there is
  no queue or no reuse (`ConnectionPool.CapBoundsNothingIff`). In every interleaving, idle plus borrowed passes the
  cap exactly at a step that adds a connection when no more fits: a get that was let through before, or a put that
  stores (`ConnectionPool.StepBreaksCapIff`, `ConnectionPool.RunKeepsCapIff`), also with a single database
  (`ConnectionPool.OverlappingGetsExceedCap`, `ConnectionPool.GetDuringPutExceedsCap`). For calls run one at a
  time without a queue, it holds for one database, and a get breaks it exactly when idle connections of other
  databases fill it up (`ConnectionPool.CapHoldsForOneKey`, `ConnectionPool.GetBreaksCapIff`,
  `ConnectionPool.TwoDatabasesExceedCap`).
- The size of the wait queue bounds neither the gets blocked at once nor those admitted over the cap: every put
  adds a permit for good, and waiting needs none (`ConnectionPool.QueueBoundsNothingIff`,
  `ConnectionPool.OverCapIsPaidFor`).
- A session that drops its connection without a put leaves the checkout counter up. The cap stays reached for good
  exactly when as many connections were dropped that way as it allows (`ConnectionPool.StarvedIff`,
  `ConnectionPool.StarvedGetsAreRefused`, `ConnectionPool.CanAbandon`).
- The weighted rotation is fair in windows that do not cross the wrap of the 64-bit counter exactly when the
  candidates' weights add up to less than 2^32 (`ReplicaScheduler.FairIff`, `ReplicaScheduler.WrappedWeightsStarve`),
  and in all windows exactly when, besides, there is a single candidate or the total divides 2^64
  (`ReplicaScheduler.FairEverywhereIff`, `ReplicaScheduler.ThreeAtTheWrap`).
- Returning a primary connection ignores the group-replication primary, and a put by an index out of range counts
  nothing down. A run keeps every counter exact throughout exactly when every connection given up in it goes to the
  pool that served it (`Checkouts.PutKeepsExactIff`, `Checkouts.RunIsExactIff`). Otherwise a counter is off: a
  misrouted put underflows the counter it takes from exactly when no connection of that pool is out
  (`Checkouts.UnderflowsIff`, `Checkouts.MisroutedPutUnderflows`, `Checkouts.MisroutedPutExchanges`), and an
  out-of-range put leaks one (`Checkouts.OutOfRangePutLeaks`).
- Pools hold and hand out connections to their own backend throughout a run exactly when the run stores none in
  another pool than the one that served it; after a group-replication switch the configured primary's pool can hand
  out a connection to a replica (`Checkouts.RunIsNativeIff`, `Checkouts.PrimaryHandsOutReplica`).
- The rollups stay exact under pruning exactly for buckets from 1970 on, or at midnight UTC before it, because
  SQLite division truncates toward zero (`Timeseries.ExactIffSafe`, `Timeseries.SafeMeans`).

## Model

| member | source | states |
|---|---|---|
| Fingerprint.Fingerprinter | src/proxy/fingerprint.rs:7-107 | the index-driven scan with its growing result yields the token-by-token fingerprint |
| Fingerprint.ScanToken | src/proxy/fingerprint.rs:14-103 | each arm of the byte match consumes and pushes exactly one token of the specification |
| Fingerprint.ScanSingle | src/proxy/fingerprint.rs:16-33 | stops after the closing quote, past backslash escapes and doubled quotes, also when unterminated |
| Fingerprint.ScanDouble | src/proxy/fingerprint.rs:39-62 | finds the end of a double-quoted token and whether it holds whitespace |
| Fingerprint.ScanNumber | src/proxy/fingerprint.rs:76-89 | skips the whole number |
| Fingerprint.ScanSpace | src/proxy/fingerprint.rs:92-97 | skips the whole whitespace run |
| Fingerprint.IdempotentIff | src/proxy/fingerprint.rs:7-107 | for every byte string, the fingerprint of the fingerprint is the fingerprint if and only if no byte from 128 up stands outside quotes |
| Fingerprint.AccentIsNotStable | src/proxy/fingerprint.rs:98-102 | the UTF-8 query C3 A9 has a fingerprint that changes when taken again |
| Fingerprint.IdempotentOnAscii | src/proxy/fingerprint.rs:7-107 | idempotence for every ASCII query, unterminated quotes included |
| Fingerprint.BodyIff | src/proxy/fingerprint.rs:16-33 | the bodies whose escapes and doubled quotes are complete are exactly those that quoting turns into one literal, whatever follows but another quote |
| Fingerprint.LiteralIndependence | src/proxy/fingerprint.rs:13-104 | swapping the body of a quoted literal for another, escaped and doubled quotes included, leaves the fingerprint unchanged, whatever follows it |
| Fingerprint.HidesLiteralsIff | src/proxy/fingerprint.rs:13-104 | literals after a prefix never show if and only if its scan does not end inside quotes; a pending backslash escape at its end counts as outside |
| Fingerprint.NumberIndependence | src/proxy/fingerprint.rs:64-90 | swapping one numeral for another after balanced text that does not end in an identifier leaves the fingerprint unchanged |
| Fingerprint.WhitespaceIndependence | src/proxy/fingerprint.rs:92-97 | swapping one whitespace run for another outside quotes leaves the fingerprint unchanged |
| Fingerprint.SingleQuotedMark | src/proxy/fingerprint.rs:16-37 | a single-quoted literal made of any bytes, escapes and doubled quotes becomes a question mark |
| Fingerprint.UnclosedSingleMark | src/proxy/fingerprint.rs:16-37 | one that is never closed swallows the rest |
| Fingerprint.DoubleQuotedMark | src/proxy/fingerprint.rs:39-62 | a double-quoted token is kept unless it holds ASCII whitespace, closed or not |
| Fingerprint.NumberMark | src/proxy/fingerprint.rs:64-90 | a digit and all the bytes after it from the listed set become a question mark where no identifier precedes |
| Fingerprint.BlankMark | src/proxy/fingerprint.rs:92-97 | a whitespace run becomes one space |
| Fingerprint.OtherBytesPass | src/proxy/fingerprint.rs:66-102 | every other byte passes through, digits of identifiers too, and bytes from 128 up as two |
| MysqlText.NextPacket | src/proxy/group_replication.rs:240-254 | the cursor reads exactly the packet framed there and moves past it, or reports a truncated one |
| MysqlText.ReadInt | src/proxy/group_replication.rs:256-276 | the cursor reads the length-encoded integer there, or reports none |
| MysqlText.ReadCell | src/proxy/group_replication.rs:278-288 | the cursor reads a string or NULL, or reports a truncated one |
| MysqlText.ParseTextRows | src/proxy/group_replication.rs:199-236 | the packet loop computes the rows of the response as the recursive reader defines them |
| MysqlText.ParseRow | src/proxy/group_replication.rs:225-233 | one row packet decodes to its cells |
| MysqlText.TakesInt | src/proxy/group_replication.rs:256-276 | the integer reader inverts the protocol encoding below 2^24, and its first byte marks neither NULL, EOF nor ERR |
| MysqlText.TakesIntIff | src/proxy/group_replication.rs:256-276 | the integer reader reads exactly the three forms, also where a shorter one would do, and refuses everything else |
| MysqlText.TakesCellIff | src/proxy/group_replication.rs:278-288 | the string reader reads exactly the NULL marker, or a length and that many bytes |
| MysqlText.TakesPacketIff | src/proxy/group_replication.rs:240-254 | the packet reader reads exactly the framing |
| MysqlText.TakesCell | src/proxy/group_replication.rs:278-288 | the string reader inverts the encoding of every string below 2^24 bytes and of NULL |
| MysqlText.TakesPacket | src/proxy/group_replication.rs:240-254 | the packet reader inverts the framing of every payload below 2^24 bytes |
| MysqlText.RowPacketIsNoMarker | src/proxy/group_replication.rs:221-224 | no row packet with a column is mistaken for EOF or ERR |
| MysqlText.RoundTrip | src/proxy/group_replication.rs:199-236 | for every result set with at least one column, parsing its encoding returns exactly its rows, whatever follows |
| MysqlText.ParsesIffComplete | src/proxy/group_replication.rs:199-236 | a prefix of an encoded set parses if and only if it reaches the end of the closing packet |
| MysqlText.NoColumns | src/proxy/group_replication.rs:203-207 | a response that announces no columns has no rows and no lag |
| MysqlText.EncodingInjective | src/proxy/group_replication.rs:199-236 | result sets with the same bytes have the same rows |
| MysqlText.ColDefName | src/proxy/health.rs:516-536 | the unchecked skips and the final read give the fifth string of the definition |
| MysqlText.ColumnNameReads | src/proxy/health.rs:516-536 | the name reader inverts the encoding of a column definition |
| MysqlText.ParseLagBytes | src/proxy/health.rs:409-455 | the early-exit reader computes the lag as specified, over all byte strings |
| MysqlText.LagAgreesWithRows | src/proxy/health.rs:409-455 | on every response the full parser accepts, the lag is that of the first row's lag column, and none without a row or such a column |
| MysqlText.LagOfEncoded | src/proxy/health.rs:420-453 | on an encoded set with a row, the lag is that of the last column named Seconds_Behind_Source or Seconds_Behind_Master |
| MysqlText.LagIs | src/proxy/health.rs:409-455 | from the first row's cell under the last column named Seconds_Behind_Source or Seconds_Behind_Master: 0 for NULL, 1000 times the value in 64 bits for a decimal numeral below 2^64, with or without a plus sign, and none exactly for any other cell |
| MysqlText.NoLag | src/proxy/health.rs:417-439 | a response with no row or no such column reports none |
| MysqlText.LagIsThousandfold | src/proxy/health.rs:445-451 | a decimal cell reports 1000 times its seconds if and only if that fits 64 bits |
| CircuitBreaker.BackendBreaker.Allows | src/proxy/circuit_breaker.rs:69-87 | answer and new state: closed and half-open admit, open admits and turns half-open once the recovery time has passed |
| CircuitBreaker.BackendBreaker.RecordSuccess | src/proxy/circuit_breaker.rs:90-97 | closes and clears the count |
| CircuitBreaker.BackendBreaker.RecordFailure | src/proxy/circuit_breaker.rs:100-117 | counts while closed and opens at the threshold or from half-open |
| CircuitBreaker.ClosedIff | src/proxy/circuit_breaker.rs:69-134 | over every history the breaker is closed if and only if fewer than max(1, threshold) failures follow the last success, and its counter is that number |
| CircuitBreaker.HalfOpenIff | src/proxy/circuit_breaker.rs:69-134 | over every history the breaker is half-open if and only if the last event is a call let through with the failures at the threshold |
| CircuitBreaker.ProbesUntilOutcome | src/proxy/circuit_breaker.rs:69-87 | from that call to the next recorded outcome every call is let through |
| CircuitBreaker.TwoProbes | src/proxy/circuit_breaker.rs:69-87 | a history in which two calls are let through half-open |
| CircuitBreaker.RefusalIff | src/proxy/circuit_breaker.rs:69-134 | a call is refused if and only if it comes within the recovery time of a failure that reached the threshold or followed a probe, with no success and no later call past the recovery time since |
| CircuitBreaker.RefusalHasRecentFailure | src/proxy/circuit_breaker.rs:69-134 | traffic is refused only within the recovery time of a failure no success followed |
| Failover.PickReplica | src/proxy/health.rs:219-224 | the filter and minimum give the specified best replica |
| Failover.Best | src/proxy/health.rs:219-224 | the first healthy replica of least lag, or none if and only if none is healthy |
| Failover.HealthChecker.CheckPrimary | src/proxy/health.rs:80-189 | the whole new state after a check, good or failed |
| Failover.HealthChecker.PrimaryUp | src/proxy/health.rs:89-149 | the whole new state after a good check: counting, cooldown, clear |
| Failover.HealthChecker.TriggerFailover | src/proxy/health.rs:191-248 | the whole new state after a trigger: flap count, trigger time, promotion |
| Failover.PgHealthChecker.CheckPrimary | src/proxy/pg_health.rs:91-181 | the same step, with the outcome recorded in the primary's breaker |
| Failover.FailureCounter | src/proxy/health.rs:90-160 | in every run the failure counter is the trailing run of failed checks modulo 2^32, and the health flag says whether it is empty |
| Failover.RecoveryIsConsecutiveIff | src/proxy/health.rs:103-117 | while a replica stands in, the recovery counter is the number of consecutive good checks if and only if no failed check followed a good one since the promotion |
| Failover.ClearedByOneGoodCheck | src/proxy/health.rs:103-144 | with two good checks required, the run fail, ok, fail, ok clears after one consecutive good check |
| Failover.PromotionCounter | src/proxy/health.rs:80-248 | in every run promotions equal clears plus the one standing; the recovery counter is the good checks since the promotion, 0 with none standing, the trigger time that of the promotion |
| Failover.StandInIsStable | src/proxy/health.rs:80-248 | the promoted index does not change until a clear |
| Failover.PromotesIff | src/proxy/health.rs:183-248 | exactly when a check promotes, and that it takes the first healthy replica of least lag |
| Failover.ClearsIff | src/proxy/health.rs:103-144 | exactly when a check clears: enough good checks since the promotion and the cooldown over |
| Failover.PromotionsAreRare | src/proxy/health.rs:80-248 | k promotions take at least k max(1, threshold) + (k - 1) max(1, min_recovery_checks) checks |
| Failover.PromotionsAreSpaced | src/proxy/health.rs:119-135 | with a positive clock that never goes back, promotions are a cooldown apart |
| Failover.PromotionSpan | src/proxy/health.rs:80-248 | k promotions span at least (k - 1) cooldowns |
| Failover.FlapIff | src/proxy/health.rs:191-216 | exactly when the flap counter rises: a failed check reaches the threshold with no stand-in, and the previous attempt found no healthy replica, at a positive time less than twice the cooldown, in 64 bits, before |
| Failover.PromotedAttemptIsNoFlap | src/proxy/health.rs:191-216 | after an attempt that promoted, cleared or not, no check counts a flap |
| Failover.ClearedFailoverIsNoFlap | src/proxy/health.rs:137-140 | the first attempt after a clear is not counted as a flap, however soon it comes |
| Failover.ReTriggeredUncounted | src/proxy/health.rs:191-216 | a run promoted at 100, cleared at 110 and promoted again at 111, within twice the cooldown, that counts no flap |
| Failover.HealthAndBreakerCoupled | src/proxy/pg_health.rs:91-181 | in every run of the checker with free calls of allows, the breaker is closed if and only if trailing failures number less than max(1, cb_threshold), and then its count is the checker's |
| QueryCache.Cache.Lookup | src/proxy/cache.rs:80-96 | the answer and the whole new state: touch on a hit, lazy removal on expiry, counters |
| QueryCache.Cache.Store | src/proxy/cache.rs:100-128 | the whole new state, with an oldest entry as victim exactly at capacity |
| QueryCache.Cache.FindOldest | src/proxy/cache.rs:117-122 | an entry of least last use, or none if the cache is empty |
| QueryCache.Cache.InvalidateTables | src/proxy/cache.rs:133-141 | keeps exactly the entries that share no table |
| QueryCache.HitsRefineHistory | src/proxy/cache.rs:80-141 | a hit returns the bytes of the latest put of that query, less than the time to live old, with no later invalidation of a table it names |
| QueryCache.ExactBelowCapacity | src/proxy/cache.rs:80-141 | with fewer distinct keys than the capacity, lookups answer exactly as the history does |
| QueryCache.SizeIsBounded | src/proxy/cache.rs:115-127 | the size never exceeds max(1, max_entries) |
| QueryCache.EvictsLeastRecentlyUsed | src/proxy/cache.rs:115-125 | with a strictly increasing clock, a victim was last used before at least max_entries - 1 other distinct keys were |
| QueryCache.RefreshEvictsIff | src/proxy/cache.rs:115-127 | in every possible run with an increasing clock, storing a present key loses another entry if and only if the cache is at capacity and some other entry was used before it; the size then drops by one |
| QueryCache.RefreshDropsOther | src/proxy/cache.rs:115-127 | with room for two, storing a, b and b again is a possible run that drops a |
| QueryCache.LookupsAreCounted | src/proxy/cache.rs:80-96 | hits are the lookups answered, and hits and misses add up to the lookups |
| QueryCache.LookupLeaves | src/proxy/cache.rs:80-96 | a lookup drops its own entry if and only if it has expired, else marks it as used, and leaves every other entry alone |
| QueryCache.CheckCacheable | src/proxy/cache.rs:156-172 | the loop over the token list decides the predicate |
| QueryCache.CacheableIff | src/proxy/cache.rs:156-172 | a query is cacheable if and only if it starts with SELECT after blanks and names neither FOR UPDATE nor FOR SHARE nor any of the seven listed words anywhere, in any capitals |
| QueryCache.HitsArePlainReads | src/proxy/cache.rs:80-172 | with that test, every hit answers such a query with the latest response still standing |
| QueryCache.NonDeterministicIsNeverCached | src/proxy/cache.rs:26-34 | a query that names a listed function anywhere, in any capitals, is not cacheable |
| QueryCache.CacheableIgnoresCase | src/proxy/cache.rs:156-172 | capitals make no difference |
| ConnectionPool.BackendConnections.PopIdle | src/proxy/pool.rs:168-191 | the popping loop: the connection reused, the entries evicted, the counters |
| ConnectionPool.BackendConnections.GetForDatabase | src/proxy/pool.rs:163-255 | a get run to completion for a requested database: reuse, refusal, permit, or a new connection to it |
| ConnectionPool.BackendConnections.PutForDatabase | src/proxy/pool.rs:264-284 | a put run to completion: counters, permit, and the bucket unless full or not reusable |
| ConnectionPool.HandedOutFrom | src/proxy/pool.rs:163-284 | over every run of requests, a connection handed out was opened with the database the request means, or was put back earlier under a request that means the same one, healthy, outside a transaction and less than the idle limit ago |
| ConnectionPool.OpenedForRequest | src/proxy/pool.rs:151-242 | when sessions put connections back under the database they were opened with, each request gets one opened with the database it names, else the configured one, an empty name meaning none |
| ConnectionPool.ReusedIff | src/proxy/pool.rs:163-284 | a connection put back goes to the next request if and only if both requests mean the same database, it is healthy and outside a transaction, its bucket had room and the idle limit has not passed |
| ConnectionPool.GetIsItsSections | src/proxy/pool.rs:163-255 | a get run to completion is its atomic sections in order |
| ConnectionPool.PutIsItsSections | src/proxy/pool.rs:264-284 | a put run to completion is its atomic sections in order |
| ConnectionPool.OwnedAndConserved | src/proxy/pool.rs:163-284 | in every interleaving, with sessions that drop connections, no connection has two holders; created = idle + held + returning + evicted + dropped + abandoned; borrowed = held + abandoned; created + reused = held + put back + abandoned |
| ConnectionPool.StarvedIff | src/proxy/router.rs:536 | the cap stays reached whatever happens next if and only if as many connections were dropped without a put as it allows |
| ConnectionPool.StarvedGetsAreRefused | src/proxy/pool.rs:193-230 | from then on, with no queue, every get that finds nothing to reuse is refused |
| ConnectionPool.CanAbandon | src/proxy/router.rs:511-555 | some run drops as many connections as the cap allows |
| ConnectionPool.IdleStaysReusable | src/proxy/pool.rs:270-283 | idle connections were healthy and outside a transaction when stored, and buckets never outgrow their size |
| ConnectionPool.OverCapIsPaidFor | src/proxy/pool.rs:194-230 | gets admitted over the cap plus permits left equal the queue size plus the puts so far, and none is admitted without a queue |
| ConnectionPool.BucketsAreOrdered | src/proxy/pool.rs:274-283 | with a clock that never goes back, every bucket is ordered by return time |
| ConnectionPool.EvictionIsAllOrNothing | src/proxy/pool.rs:171-190 | a get takes the most recently returned connection of the bucket, or finds it stale and empties the bucket |
| ConnectionPool.QueueBoundsNothingIff | src/proxy/pool.rs:194-230 | every number of gets waiting at once with no permit left, and every number admitted over the cap, is reached in some run if and only if there are a queue and a cap |
| ConnectionPool.StepBreaksCapIff | src/proxy/pool.rs:163-284 | in any interleaving, with or without a queue, a step breaks the cap on idle plus borrowed if and only if no connection more fits and the step opens one for an admitted get or stores one in a bucket with room |
| ConnectionPool.RunKeepsCapIff | src/proxy/pool.rs:163-284 | a run stays within the cap throughout if and only if no step of it adds a connection when no more fits |
| ConnectionPool.CapBoundsNothingIff | src/proxy/pool.rs:163-284 | every number of checkouts is reached in some run unless the cap is 0 and there is no queue or nothing is reused; checkouts then stay within the queue size |
| ConnectionPool.OverlappingGetsExceedCap | src/proxy/pool.rs:193-251 | two gets on one database pass the check before either connects, and borrow two connections under a cap of one |
| ConnectionPool.GetDuringPutExceedsCap | src/proxy/pool.rs:265-283 | a get between the two halves of a put on one database leaves idle plus borrowed over a cap of one |
| ConnectionPool.GetBreaksCapIff | src/proxy/pool.rs:163-255 | for calls one at a time with no queue, a get breaks the cap if and only if it opens a connection while idle connections of other databases fill the cap up; its own bucket is then empty |
| ConnectionPool.CapHoldsForOneKey | src/proxy/pool.rs:163-284 | with no queue and one database, idle plus borrowed never exceeds max_connections over runs of completed calls |
| ConnectionPool.TwoDatabasesExceedCap | src/proxy/pool.rs:171-196 | a run of calls that do not overlap, on two databases, that borrows two connections under a cap of one |
| ReplicaScheduler.Choose | src/proxy/pool.rs:566-580 | the accumulating loop in 32-bit arithmetic finds the choice for the slot; while the weights fit 32 bits that is the candidate whose stretch of weights holds it |
| ReplicaScheduler.SearchFinds | src/proxy/pool.rs:566-580 | however the sums wrap, a slot below the wrapped total is found, and what is found is a candidate: the default is never needed |
| ReplicaScheduler.SlotsAreTaken | src/proxy/pool.rs:572-580 | every slot below the total weight lies in some candidate's stretch |
| ReplicaScheduler.WeightedFairness | src/proxy/pool.rs:566-580 | any W consecutive counter values without wraparound choose each candidate exactly its weight's number of times |
| ReplicaScheduler.FairIff | src/proxy/pool.rs:562-580 | a window as long as the 32-bit total that does not cross the counter's wrap gives each candidate its weight if and only if the weights add up to less than 2^32 |
| ReplicaScheduler.FairEverywhereIff | src/proxy/pool.rs:562-580 | every window of that length, across the wrap too, gives each candidate its weight if and only if, besides, there is one candidate only or the total divides 2^64 |
| ReplicaScheduler.ThreeAtTheWrap | src/proxy/pool.rs:568-570 | with weights 1, 1, 1 the window at counter value 2^64 - 1 chooses the first candidate twice |
| ReplicaScheduler.WrappedWeightsStarve | src/proxy/pool.rs:566-580 | with weights 2^32 - 1 and 2 the second candidate is never chosen |
| ReplicaScheduler.PassesAreFair | src/proxy/pool.rs:544-605 | W passes in a row with the same candidates, all connecting, are served by each exactly its weight's number of times |
| ReplicaScheduler.CandidatesAreEligible | src/proxy/pool.rs:550-560 | the candidates are exactly the replicas of the pass that are healthy and whose breaker allows traffic, each once, with weight at least one |
| ReplicaScheduler.CandidatesAre | src/proxy/pool.rs:550-560 | a replica is a candidate if and only if it belongs to the pass, is healthy, and its breaker is not open or has been for the recovery time |
| ReplicaScheduler.BackendReplicas.CollectCandidates | src/proxy/pool.rs:550-560 | the filter, with the breakers it turns half-open |
| ReplicaScheduler.BackendReplicas.TryWeightedReplica | src/proxy/pool.rs:544-605 | what a pass finds and the health, breakers and counter it leaves |
| ReplicaScheduler.BackendReplicas.TryFrom | src/proxy/pool.rs:582-604 | the choice first, then the other candidates in order up to the first that connects |
| ReplicaScheduler.BackendReplicas.GetReplicaForDatabase | src/proxy/pool.rs:517-540 | the non-backup pass, then the backup pass, then the primary |
| ReplicaScheduler.PassKeepsPromise | src/proxy/pool.rs:544-605 | a pass finds a replica if and only if an eligible one connects, prefers the weighted choice, takes health from exactly the eligible replicas that failed before the answer, and asks exactly the breakers of the healthy replicas of the pass |
| ReplicaScheduler.FallbackOrder | src/proxy/pool.rs:517-605 | a backup is used if and only if no eligible non-backup connects, the primary if and only if no eligible replica does; every eligible replica of a pass that found nothing, and in the pass that served the failed choice and every eligible replica before the answer, is left unhealthy |
| Checkouts.BackendRouter.GetPrimary | src/proxy/pool.rs:475-501 | which pool a primary get counts up: group-replication primary, failover replica, configured primary |
| Checkouts.BackendRouter.PutPrimary | src/proxy/pool.rs:650-664 | which pool a primary put counts down, with wrap-around |
| Checkouts.BackendRouter.PutReplica | src/proxy/pool.rs:671-680 | counts the replica down, and does nothing out of range |
| Checkouts.PrimaryGetGoesTo | src/proxy/pool.rs:475-501 | over every history a primary get counts up exactly one pool: the last group-replication index if it is a replica, whatever the failover index, else the last failover index, else the configured primary |
| Checkouts.PrimaryPutGoesTo | src/proxy/pool.rs:650-664 | a primary put counts down the last failover index if it is a replica, else the configured primary, whatever the group-replication index |
| Checkouts.ReplicaCallGoesTo | src/proxy/pool.rs:671-680 | a replica get or put moves the counter of that replica, and none out of range |
| Checkouts.BothIndicesSet | src/proxy/pool.rs:480-501 | with both indices set, gets and puts go to different replicas |
| Checkouts.TotalSurvivesRerouting | src/proxy/pool.rs:475-501 | however the indices move, the counters add up to successful gets less in-range puts, modulo 2^64 |
| Checkouts.PutKeepsExactIff | src/proxy/pool.rs:650-680 | a step keeps every pool's counter exact if and only if a connection it gives up goes to the pool that served it; out-of-range puts and dropped connections go nowhere |
| Checkouts.RunIsExactIff | src/proxy/pool.rs:475-680 | a run keeps the counters exact throughout if and only if every connection given up in it goes home |
| Checkouts.UnderflowsIff | src/proxy/pool.rs:650-664 | a misrouted put underflows the counter it takes from if and only if no connection of that pool is out |
| Checkouts.RunIsNativeIff | src/proxy/pool.rs:475-680 | every pool's idle connections are to its own backend throughout a run if and only if none is stored in another pool than the one that served it, and so then are those out |
| Checkouts.QuietRunsAreExact | src/proxy/pool.rs:475-680 | with no group-replication primary, no failover change while a primary connection is out and every connection put back by the way it was got, every counter is exact and every connection is to its pool's backend |
| Checkouts.MisroutedPutUnderflows | src/proxy/pool.rs:480-486 | a connection taken from a group-replication primary underflows the primary's counter when returned, and is stored there |
| Checkouts.PrimaryHandsOutReplica | src/proxy/pool.rs:655-663 | the configured primary's pool then hands that replica connection out |
| Checkouts.MisroutedPutExchanges | src/proxy/pool.rs:650-664 | a misrouted put that makes two counters wrong without an underflow |
| Checkouts.OutOfRangePutLeaks | src/proxy/router.rs:902-913 | a read that fell back to the primary and is put back by index leaves the primary's counter up |
| Timeseries.TimeseriesStore.RecordMinute | src/analytics/timeseries.rs:118-138 | the upsert: sums added, maximum kept |
| Timeseries.TimeseriesStore.GroupRows | src/analytics/timeseries.rs:148-157 | computes the grouping query over any table |
| Timeseries.TimeseriesStore.RollupHourly | src/analytics/timeseries.rs:143-160 | replaces the hour rows that have minutes |
| Timeseries.TimeseriesStore.RollupDaily | src/analytics/timeseries.rs:164-181 | replaces the day rows that have hours |
| Timeseries.TimeseriesStore.Prune | src/analytics/timeseries.rs:184-192 | keeps exactly the rows from the cutoff on, at all three resolutions |
| Timeseries.GroupMeans | src/analytics/timeseries.rs:148-178 | groups start at the whole hour or day at or before the bucket from 1970 on, and at or after it before |
| Timeseries.AggTotals | src/analytics/timeseries.rs:151-153 | an aggregate holds the three sums over its rows |
| Timeseries.AggMax | src/analytics/timeseries.rs:154 | an aggregate's maximum bounds its rows' maxima and is one of them |
| Timeseries.MinutesSurvive | src/analytics/timeseries.rs:118-138 | the minute rows are the recorded snapshots not pruned since, combined |
| Timeseries.TwoLevelsAreOne | src/analytics/timeseries.rs:143-181 | rolling minutes into hours and those into days is rolling minutes into days |
| Timeseries.RollupsAreExactViews | src/analytics/timeseries.rs:118-192 | after any run at any cutoffs, rollups leave hours and days equal to direct grouping of the surviving minutes, for safe buckets |
| Timeseries.ExactIffSafe | src/analytics/timeseries.rs:118-192 | a bucket never spoils the views in any run if and only if it is safe |
| Timeseries.SafeMeans | src/analytics/timeseries.rs:148-178 | the safe buckets are those from 1970 on, and before it those at midnight |
| Timeseries.RollupReplaces | src/analytics/timeseries.rs:143-181 | a rollup replaces the hours that have minutes and the days that have hours, and keeps all the others, in any state |
| Timeseries.RollupsAreIdempotent | src/analytics/timeseries.rs:140-181 | rolling up again changes nothing |
| QueryStats.Collector.Record | src/analytics/collector.rs:57-72 | the new statistic: count, total, minimum, maximum |
| QueryStats.Collector.Drain | src/analytics/collector.rs:167-172 | lists every statistic once and empties the map |
| QueryStats.AnalyticsStorage.Flush | src/analytics/storage.rs:41-78 | one upsert per entry yields the merged table, in any order |
| QueryStats.AnalyticsStorage.LoadTotalQueryCount | src/analytics/storage.rs:110-118 | the sum of all stored counts |
| QueryStats.HistoryIsAccountedFor | src/analytics/collector.rs:57-72 | for every interleaving of records, drains and commits, stored, drained and in-memory statistics are the whole history |
| QueryStats.FlushedRowIsWholeHistory | src/analytics/storage.rs:41-78 | a fully committed row has the exact count and extremes, and a total short by less than one microsecond a flush |
| QueryStats.DurationsAreAccountedFor | src/analytics/collector.rs:57-72 | against the sequence of durations recorded: counts add up to its length, sums to its sum short of one microsecond a flush, and extremes are its least and greatest elements in microseconds |
| QueryStats.RowHoldsDurations | src/analytics/storage.rs:41-78 | a fully committed row holds the length, the least and greatest element in microseconds, and the sum short of less than one microsecond a flush |
| QueryStats.FiveMilliseconds | src/analytics/storage.rs:41-78 | one query of 5 ms is stored as one of 5000 microseconds |
| QueryStats.NoEventCountedTwice | src/analytics/storage.rs:110-118 | stored, drained, in-memory and lost events are all the events, failed flushes included |

## Left out

- Sockets, TLS, handshakes, authentication and the protocol modules: network and library code.
- Routing, rules, rewriting, dashboards and metrics endpoints: plumbing around the modelled machines.
- The dashboard's manual failover trigger and clear (`src/dashboard/routes.rs`): they bypass the counters, so the failover theorems are about runs of one checker alone.
- Weak-memory effects of the relaxed atomics: each locked section, breaker method and health check is one step.
- `extract_tables_simple` and Unicode case mapping: the cache theorems hold for every table extraction and every cacheability test; `IsCacheable` is modelled for ASCII text.
- Cache puts read the clock before they take the lock; the model orders operations by the lock and lets the times be any, except where a theorem asks for an increasing clock.
- `Checkouts` takes each pool's idle connections as one bag: which of them a get reuses or evicts, and whether a put keeps its connection, are inputs there, decided as `ConnectionPool` models it.
- The pool reads the clock once per popped entry; the model reads it once per locked section.
- UTF-8 decoding of result-set cells: cells are bytes. Payloads of 2^24 - 1 bytes or more, which the protocol splits into several packets, are not split by the encoder.
- Galera state, Patroni and replica checks, and the mapping of rows to group members: parsing and field copying that would only add easy members; replica health is a free input.
- Percentiles, heatmap, histogram, N+1 and regression stores: overwritten or derived values with easier properties.
- Overflow of 64-bit event counters and of the signed SQLite columns; the 32-bit failure counter, the 64-bit lag, the flap window, the round-robin counter and the checkout counters do wrap in the model, as in a release build.
- TryWeightedReplica: requires, as do Choose and GetReplicaForDatabase, that the candidates' weights do not add up to exactly 0 modulo 2^32, because the source then divides by zero and panics.
- One breaker clock serves both passes of a replica selection; the source reads the clock at each call of `allows`, with waits in between.
- `PgHealthChecker.trigger_failover` guards against more replica configurations than health entries; the model's replica list is the part it considers, and the step is shared with the MySQL checker.
