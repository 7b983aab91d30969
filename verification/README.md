# Smart Travel Aggregator: verified model

This project models the state-keeping and transforming cores of the aggregator in Dafny and proves
what they promise over whole runs.

- **Circuit breaker** (`CircuitBreaker.dfy`, `BreakerLoad.dfy`). `call` gives up control while the
  upstream is awaited, so a run is any interleaving of *begin*, *succeed*, *fail* and *cancel* steps.
  The three-state machine is shown to decide like a two-line rule on the completion log, and that rule
  gives a sharp bound on the load a dead upstream receives.
- **Rate limiters** (`SlidingWindow.dfy`, `FixedWindow.dfy`). The in-process limiter prunes and sweeps,
  yet answers like one that never forgets. The Redis limiter is a server map with `INCR` and
  `EXPIRE NX` in one transaction; its worst interval is computed exactly.
- **Cache, denylist, HTTP client** (`Cache.dfy`, `Tokens.dfy`, `TokenBlocklist.dfy`, `HttpClient.dfy`,
  `CachedReads.dfy`, `ClientLoad.dfy`, `WorstClients.dfy`). Lazy expiry against the full timed log, logout
  against every later attempt, the retry loop, and a step system of any number of clients whose cache
  reads, requests, replies and breaker reports interleave, with one breaker per provider over one shared
  cache.
- **Aggregation** (`Dedupe.dfy`, `FanOut.dfy`, `StableSort.dfy`, `Ranking.dfy`, `Aggregation.dfy`,
  `Hotels.dfy`, `Pagination.dfy`). De-duplication as a merge homomorphism, the exact condition for
  moving a filter in front of it, exactly which offers a search lists and in which order, the quality of
  the BEST order, and pages that tile the result.
- **Price monitor** (`PriceMonitor.dfy`, `Worker.dfy`). The fare an alert is compared with, runs that
  may end at any step, and histories of committed and abandoned runs: what fires, and who is told how often.

Conventions. Clocks do not run backwards; times are exact reals. Where the source changes objects in
place the model has a class whose methods are proved against functions on snapshots, and the theorems
are about those functions. `str.lower`, the lenient parts of Python's base64 and integer parsers, token
signatures, providers, users and the mail server are parameters of which nothing is assumed.

Findings, where the code does something other than its documentation or a natural reading suggests:

- `app/resilience/circuit_breaker.py:1-7` says that *the next call* probes after the recovery time. Until
  a call completes, the code admits exactly the callers that come a recovery time after the last failure,
  all of them (`EveryCallerProbes`; two at once in `TwoProbesAtOnce`).
- The same lines say that a probe closes the breaker. Any success does and nothing else
  (`OnlySuccessCloses`); `ClosesUnprobedIff` says exactly when that is without a probe, and in
  `LateSuccessCloses` a call admitted earlier closes a breaker that would still reject everybody.
- `app/providers/http_client.py:25` lists retryable statuses, but a status is retried if and only if it is
  outside 200..299, because `raise_for_status` raises into the same handler (`StatusIsRetriedIff`; 404 in
  `UnlistedStatusIsRetried`). `ListDecidesNothingIff` says which lists would make a difference.
- A revoked token is refused by every attempt, even one that decoded it before the revocation, except an
  attempt that straddles its expiry: the token is decoded
  before `exp` and the denylist is read after the entry has lapsed, two separate clock readings.
  `GateIsExact` gives the exact condition, `StraddlingAttemptPasses` an instance.
- Only a payload with an identifier and an integer expiry can be revoked (`RevocationTakesEffectIff`); in
  `UnexpiringTokenPasses` a revoked token without an expiry is let through.
- `logout` leaves a refresh token alone that does not decode. That token is dead for good, unless it was
  refused for being issued in the future (`LogoutEndsTheSession`, `EarlyTokenSurvivesLogout`).
- Filters on stops, ratings and amenities do not commute with de-duplication, because those fields are
  not in the key (`FlightFiltersCommute`, `HotelFiltersCommute`; two offers that tell the orders apart in
  `StopsTellTheOrdersApart` and `RatingsTellTheOrdersApart`).
- Notices leave before the commit. An owner is told twice about one alert only if every run that told
  before was abandoned (`RepeatsFollowAbandonedRuns`), and never where all runs are committed
  (`OneNoticePerAlert`); `AbandonedRunRepeats` shows the repetition.

## Model

| member | source | states |
|---|---|---|
| CircuitBreakers.RunIsExplained | app/resilience/circuit_breaker.py:70-87 | over every interleaving the breaker is CLOSED iff its consecutive failures are below the threshold, and otherwise `_opened_at` is the last failure |
| CircuitBreakers.AdmissionFollowsTheRule | app/resilience/circuit_breaker.py:55-75 | a call is admitted iff too few failures trail the completion log or the last failure is at least `recovery_seconds` old, for every threshold and recovery time |
| CircuitBreakers.OnlyCompletionsMatter | app/resilience/circuit_breaker.py:55-87 | the machine admits as if waiting, rejected and cancelled calls had never been there |
| CircuitBreakers.EveryCallerProbes | app/resilience/circuit_breaker.py:55-75 | a tripped breaker admits, until a call completes, exactly the callers that come a recovery time after the last failure, however many |
| CircuitBreakers.TwoProbesAtOnce | app/resilience/circuit_breaker.py:55-75 | two callers are let in as probes at the same moment |
| CircuitBreakers.OnlySuccessCloses | app/resilience/circuit_breaker.py:77-87 | over every run, a tripped breaker is closed again at some moment iff some call succeeds |
| CircuitBreakers.HalfOpenMeansProbed | app/resilience/circuit_breaker.py:70-75 | HALF_OPEN means tripped, with a caller since the last completion that came after the recovery time |
| CircuitBreakers.ClosesUnprobedIff | app/resilience/circuit_breaker.py:77-80 | a step closes an OPEN breaker iff it is a success while the breaker is tripped and unprobed |
| CircuitBreakers.LateSuccessCloses | app/resilience/circuit_breaker.py:77-80 | a call admitted before the breaker tripped closes it long before the recovery time |
| CircuitBreakers.CircuitBreaker.Enter | app/resilience/circuit_breaker.py:56-59 | the locked entry of `call` admits by the rule and a rejected call leaves the fields alone |
| CircuitBreakers.CircuitBreaker.OnSuccess | app/resilience/circuit_breaker.py:77-80 | any success closes the breaker; the fields stay those the log determines |
| CircuitBreakers.CircuitBreaker.OnFailure | app/resilience/circuit_breaker.py:82-87 | after a failure the breaker is open iff the trailing failures reach the threshold |
| BreakerLoad.EveryBurstIsPaid | app/resilience/circuit_breaker.py:55-87 | invariant of a dead-upstream run: all but the current burst is paid for by recovery periods up to the last failure |
| BreakerLoad.LoadOnADeadUpstream | app/resilience/circuit_breaker.py:55-87 | with at most C calls in flight and no success, a run of length T admits at most threshold - 1 + C * (1 + floor(T / recovery)) calls plus those cancelled |
| BreakerLoad.TheBoundIsAttained | app/resilience/circuit_breaker.py:55-87 | for every threshold, capacity and number of bursts a legal run without cancellation spends exactly that bound |
| HttpClients.ListDecidesNothingIff | app/providers/http_client.py:75-83 | a list of retryable statuses has no effect on what is caught iff it names no success, which the actual list does not |
| HttpClients.StatusIsRetriedIff | app/providers/http_client.py:72-95 | a status is caught iff it is outside 200..299, and an upstream that keeps answering it is asked until the budget is spent iff so |
| HttpClients.UnlistedStatusIsRetried | app/providers/http_client.py:72-99 | three attempts on 404, which is not on the list |
| HttpClients.AttemptsMean | app/providers/http_client.py:70-95 | attempts stay within the budget, all but the last meet a caught reply, and only an uncaught reply stops early |
| HttpClients.UnavailableMeansExhausted | app/providers/http_client.py:89-99 | the call ends as unavailable iff every permitted attempt is caught, after exactly `max_retries + 1` attempts |
| HttpClients.OutcomeMeans | app/providers/http_client.py:72-95 | the loop ends at the first reply that is neither a transport error nor a response outside 200..299: the payload is the body of that success, and a success without JSON or an exception of another kind is raised at once |
| HttpClients.TotalDelay | app/providers/http_client.py:84-93 | the doubling delays add up to base * (2^n - 1) |
| HttpClients.HttpLoadOnADeadUpstream | app/providers/http_client.py:70-99 | breaker and retry loop together: HTTP attempts on a dead upstream are at most the retry budget times the breaker's bound |
| CacheKeys.HttpKeysDiffer | app/providers/http_client.py:101-104 | two requests share a cache key iff they are the same request of the same provider |
| HttpClients.ResponsesAreKeptApart | app/providers/http_client.py:53-67 | a stored response answers the same request until its ttl is over, and changes the answer to no other request |
| HttpClients.ResilientHttpClient.GetWithRetry | app/providers/http_client.py:70-99 | the loop returns the specified outcome with the specified number of attempts and the doubling delays between them |
| HttpClients.ResilientHttpClient.GetJson | app/providers/http_client.py:46-68 | an uninterrupted call: a live entry is served without touching the breaker, a rejection or failure stores nothing, a success is stored under the call's key and ttl |
| SlidingWindow.SweepingIsInvisible | app/core/rate_limit.py:52-74 | for every run over any identities, `(allowed, remaining)` equals that of a limiter that keeps every admission forever and counts the window |
| SlidingWindow.AdmissionsAreRemembered | app/core/rate_limit.py:52-74 | what the limiter itself admits, run through its pruned and swept state, is the list the unlimited reference admits |
| SlidingWindow.AnswerIsExact | app/core/rate_limit.py:52-63 | with exactly k of the limiter's own admissions less than a window old, the answer is (True, limit - k - 1) if k is below the limit and (False, 0) otherwise |
| SlidingWindow.WindowNeverOverfills | app/core/rate_limit.py:52-63 | every interval (a, a + window] holds at most `limit` admissions the limiter granted to one identity |
| SlidingWindow.AdmissionsAreSpaced | app/core/rate_limit.py:52-63 | admission i + limit of the limiter comes at least one window after its admission i |
| SlidingWindow.MemoryFollowsTraffic | app/core/rate_limit.py:65-74 | a tracked identity was admitted by the limiter within the last two windows, and what is held are at most `limit` of its admissions |
| SlidingWindow.SweepsAreRare | app/core/rate_limit.py:65-72 | a run of length T scans all identities at most floor(T / window) times |
| SlidingWindow.InMemoryRateLimiter.CheckNow | app/core/rate_limit.py:52-63 | the method answers like the unlimited reference and its fields stay those the log determines |
| SlidingWindow.InMemoryRateLimiter.Sweep | app/core/rate_limit.py:65-74 | the deletion loop keeps exactly the identities with a recent timestamp, and does nothing when no sweep is due |
| FixedWindow.TransactionLeavesAnExpiry | app/core/rate_limit.py:90-97 | whatever the server held, even a counter without expiry, one transaction leaves the key with an expiry, counts one and touches no other key |
| FixedWindow.EveryKeyExpires | app/core/rate_limit.py:90-97 | over any run every key carries an expiry |
| FixedWindow.LedgerExplainsTheServer | app/core/rate_limit.py:88-99 | identities do not influence one another: the shared server decides for each as its own sequence of fixed windows |
| FixedWindow.FixedWindowBound | app/core/rate_limit.py:88-99 | any interval (a, a + window] holds at most 2 * limit - 1 admissions of one identity |
| FixedWindow.WorstRunIsChronological | app/core/rate_limit.py:88-99 | the worst run is a legal run |
| FixedWindow.TheBoundIsAttained | app/core/rate_limit.py:88-99 | the worst run puts exactly 2 * limit - 1 admissions into one window length |
| FixedWindow.LockoutEnds | app/core/rate_limit.py:90-99 | however many hits arrive meanwhile, an identity has been admitted again by its first check more than a window after any check |
| FixedWindow.RemainingIsExact | app/core/rate_limit.py:88-99 | before its counter expires, a further hit of an identity is admitted iff fewer of its hits than the answered `remaining` came in between |
| FixedWindow.RedisRateLimiter.CheckNow | app/core/rate_limit.py:88-99 | the method performs the transaction on the server and answers from the returned count |
| FixedWindow.RedisServer.IncrKey | app/core/rate_limit.py:94 | the effect of `INCR` on a live, an expired and a missing key |
| FixedWindow.RedisServer.ExpireKeyNX | app/core/rate_limit.py:95 | the effect of `EXPIRE NX`: only a key without an expiry gets one |
| Caches.ReferenceMeans | app/resilience/cache.py:34-55 | the timed log answers v iff some set of v less than its ttl ago was not followed by a set, delete or clear of the key |
| Caches.LazyExpiryIsInvisible | app/resilience/cache.py:34-47 | every read of the store with its lazily dropped entries answers as the full timed log |
| Caches.InMemoryCache.GetValue | app/resilience/cache.py:34-43 | `get` answers as the timed log, popping an expired entry on the way |
| Caches.InMemoryCache.SetValue | app/resilience/cache.py:45-47 | `set` records value and ttl; the store stays the one the log determines |
| Caches.InMemoryCache.DeleteKey | app/resilience/cache.py:49-51 | `delete` removes the key whether or not it is there |
| Caches.InMemoryCache.ClearAll | app/resilience/cache.py:53-55 | `clear` empties the store |
| CachedReads.NextKeepsCacheRecorded | app/providers/http_client.py:46-68 | in every interleaving each live HTTP entry was stored by a recorded call; denylist traffic never forges one |
| CachedReads.NextKeepsRecordsGenuine | app/providers/http_client.py:60-68 | every record names a call for that key that got that payload from the upstream |
| CachedReads.CachedReadsAreHonest | app/providers/http_client.py:46-68 | in every interleaving of clients of any providers a call returns either its own upstream success or one that a call for the same request of the same provider stored less than its ttl before, never a failure |
| CachedReads.StoredIsServed | app/providers/http_client.py:53-67 | over every run, what one call stored is served to another with the same request, until the ttl is over or it is replaced or removed |
| CachedReads.InterleavedRetries | app/providers/http_client.py:70-99 | a call whose attempts interleave with everything else ends as the uninterrupted retry loop on the replies it got, with as many attempts |
| CachedReads.HitsBypassTheBreaker | app/providers/http_client.py:53-58 | over every run, a call looking up a key with a live entry in the timed log is served that entry for good and no breaker hears of it; without one it goes on to its breaker |
| ClientLoad.BreakerCountsTheBusy | app/resilience/circuit_breaker.py:55-68 | in every interleaving, admissions minus completions on a provider's breaker are the calls out to it: only calls in flight complete, none twice |
| ClientLoad.RequestsPerAdmission | app/providers/http_client.py:60-99 | in every interleaving, the HTTP requests sent to a provider, answered, outstanding or cut off, are at most the retry budget times the calls its breaker admitted |
| ClientLoad.RequestsToADeadProvider | app/providers/http_client.py:46-99 | whatever all clients do, the HTTP requests sent to a provider that delivers nothing, whether or not replies come, are at most the retry budget times the breaker's bound: the cancelled calls, threshold - 1, and one capacity-full burst per recovery period |
| WorstClients.TheJointBoundIsAttained | app/providers/http_client.py:46-99 | for every setup, capacity and number of bursts a legal run of the clients without cancellation sends exactly that many requests |
| Tokens.RefusalIsFinal | app/core/security.py:93-109 | a token that fails to decode fails at every later time, unless it failed for being issued in the future |
| Tokens.MintedTokenLifetime | app/core/security.py:41-50 | a minted token decodes as its own type only, from the second of its minting until at most a second before its nominal end, never before or later |
| TokenBlocklists.OnlyOwnRevocationsTouch | app/services/token_blocklist.py:21-33 | no other revocation, denylist check or cached response touches the record of an identifier |
| TokenBlocklists.EntryOutlivesToken | app/services/token_blocklist.py:35-40 | the entry stored with a ttl floored from an earlier clock reading lapses no earlier than the token expires, and less than a second plus the distance of the readings later |
| TokenBlocklists.DenylistIsASet | app/services/token_blocklist.py:21-33 | while the token lives, the timed denylist answers as a permanent set of revoked identifiers: nothing is lost, nothing is forged |
| TokenBlocklists.GateIsExact | app/api/deps.py:110-123 | an attempt passes iff its token is authentic, of the right kind, names a subject, is neither expired nor issued in the future, and cannot be revoked, was never revoked, or its entry lapsed before the denylist was read |
| TokenBlocklists.AccessGateIsExact | app/api/deps.py:110-123 | `get_access_payload` hands on exactly the payloads of such access tokens |
| TokenBlocklists.RefreshIsExact | app/services/auth_service.py:115-122 | `refresh` succeeds with exactly such refresh tokens of active accounts |
| TokenBlocklists.RevocationHolds | app/api/deps.py:110-123 | an attempt on a revoked token that does not straddle the expiry is refused |
| TokenBlocklists.StraddlingAttemptPasses | app/api/deps.py:117-123 | the exception is real: decoded just before the expiry, denylist read just after the entry lapsed |
| TokenBlocklists.UnexpiringTokenPasses | app/services/token_blocklist.py:21-40 | a revoked token without an expiry is let through |
| TokenBlocklists.RevocationTakesEffectIff | app/services/token_blocklist.py:21-40 | over every run and wherever the clock readings fall, a revoked token still alive is on the denylist iff it carries an identifier and an integer expiry |
| TokenBlocklists.LogoutEndsTheSession | app/services/auth_service.py:115-154 | after `logout` neither the access token nor the given refresh token passes its gate, whatever else uses the cache, in an attempt that asks the denylist after the logout and does not straddle the expiry; a refresh token that did not decode at the logout included, unless it was issued in the future |
| TokenBlocklists.EarlyTokenSurvivesLogout | app/services/auth_service.py:145-154 | a refresh token issued in the future is left alone by `logout` and accepted later |
| TokenBlocklists.TokenBlocklist.RevokeToken | app/services/token_blocklist.py:21-27 | the method writes exactly the denylist entry, or nothing |
| TokenBlocklists.TokenBlocklist.CheckToken | app/services/token_blocklist.py:29-33 | the method answers whether a live entry exists |
| TokenBlocklists.AuthService.Logout | app/services/auth_service.py:145-154 | the method revokes the access payload and then the refresh token if it still decodes |
| Pagination.ParsePrint | app/services/pagination.py:8-16 | decimal digits read back as the offset printed |
| Pagination.Base64RoundTrip | app/services/pagination.py:8-16 | URL-safe base64 decodes what it encoded, in all three padding cases |
| Pagination.CursorRoundTrip | app/services/pagination.py:8-19 | `decode_cursor(encode_cursor(n)) == n` for every n |
| Pagination.CursorSamples | app/services/pagination.py:8-16 | the cursors of 0, 20 and 100 as they look on the wire; no cursor and an empty one mean the start |
| Pagination.MoreMeansMore | app/services/aggregation.py:92-95 | `has_more` iff there is a next cursor, and then the page is full and the page at that cursor has items; without it the end is reached |
| Pagination.WalkTilesTheResult | app/services/aggregation.py:92-95 | following `next_cursor` from no cursor with any page sizes shows every result exactly once, in order, and ends |
| Pagination.WalkLength | app/services/aggregation.py:92-95 | with a fixed limit the walk takes max(1, ceil(total / limit)) pages |
| Dedupe.DedupedIsDedupe | app/services/aggregation.py:125-139 | one offer per key, in order of first appearance of the key, each the earliest among the cheapest |
| Dedupe.DedupeIsUnique | app/services/aggregation.py:125-139 | that description determines the result |
| Dedupe.DedupeMerges | app/services/aggregation.py:125-139 | de-duplicating parts and merging equals de-duplicating everything, as lists; idempotence |
| Dedupe.FilterLastIsIncluded | app/services/aggregation.py:87-88 | for any filter, what survives de-duplicating first also survives filtering first |
| Dedupe.FilterCommutesIffMonotone | app/services/aggregation.py:87-88 | the two orders agree on all offer lists, as multisets, iff within one key whatever costs no more than an accepted offer is accepted |
| Dedupe.DedupeOffers | app/services/aggregation.py:126-139 | the dict loop computes the de-duplication |
| FanOuts.FanOut | app/services/aggregation.py:114-123 | the loop merges the answers in provider order and counts both kinds |
| FanOuts.MergeKeepsOrder | app/services/aggregation.py:114-123 | the answers are put together in provider order, each as it came, failures giving nothing |
| FanOuts.FailuresAreAbsent | app/services/aggregation.py:116-123 | the merged list equals that of only the providers that succeeded |
| FanOuts.MergeMembers | app/services/aggregation.py:116-123 | the merged list holds what some answering provider offers, and nothing else |
| FanOuts.CompletionOrderIsInvisible | app/services/aggregation.py:110-123 | whatever order the providers finish in, the merged list and the succeeding providers are the same |
| StableSort.SortIsStable | app/services/aggregation.py:164-172 | the sorted list is ordered, keeps the order of equal keys, and loses nothing |
| StableSort.StableSortIsUnique | app/services/aggregation.py:164-172 | order and stability determine the list, so it is the one `sorted` returns |
| StableSort.TiesKeepTheirOrder | app/services/aggregation.py:164-172 | elements with equal keys stand in their original order |
| Ranking.RoundingIsNearest | app/services/aggregation.py:160 | a rounded score is the nearest whole number of thousandths, of two equally near ones the even one |
| Ranking.RoundingIsMonotone | app/services/aggregation.py:160 | rounding never reverses two scores |
| Aggregation.FlightFiltersCommute | app/services/aggregation.py:37-44 | flight filters may be applied before de-duplication iff they ignore the number of stops, or let nothing through: a negative cap, or airlines of which none is a lower-cased name |
| Aggregation.StopsTellTheOrdersApart | app/services/aggregation.py:37-44 | two flights of one key and price on which filtering for direct flights before and after de-duplication differ |
| Aggregation.Rank | app/services/aggregation.py:141-161 | the ranking loop gives every flight its rounded score |
| Aggregation.IdealScoresOne | app/services/aggregation.py:145-160 | the lowest price, the shortest duration and no stop together score one |
| Aggregation.PriceWeighsHalf | app/services/aggregation.py:153-160 | other things equal, a higher price costs half of what part of the price span the difference is |
| Aggregation.DurationWeighsThreeTenths | app/services/aggregation.py:154-160 | a longer duration costs three tenths of what part of the duration span the difference is |
| Aggregation.StopsWeighTwoTenths | app/services/aggregation.py:157-160 | more stops cost two tenths of what part of the most stops the difference is |
| Aggregation.ScoresAreFractions | app/services/aggregation.py:141-161 | every score lies in [0, 1] and within 0.0005 of the exact one |
| Aggregation.DominanceIsRespected | app/services/aggregation.py:153-160 | an offer no worse in price, duration and stops never scores lower |
| Aggregation.ScoresIgnoreUnits | app/services/aggregation.py:145-160 | scaling all prices and shifting them by a constant changes no score |
| Aggregation.BestOrderIsNearlyExact | app/services/aggregation.py:164-172 | in the BEST order nothing further down is better by more than 0.001 than anything above it |
| Aggregation.ResultIsExact | app/services/aggregation.py:84-139 | the result lists of every flight the cheapest offer, among equally cheap ones the first of the first provider, provided that offer meets the cap, the stops and the airlines; nothing else |
| Aggregation.OrderIsExact | app/services/aggregation.py:84-172 | the result is ordered by the requested field, offers that agree in it by which flight was mentioned first, and lists no flight twice |
| Aggregation.ScoresAreOfThisList | app/services/aggregation.py:87-90 | every score compares its flight with the flights that are listed, and with no others |
| Aggregation.Search | app/services/aggregation.py:75-107 | the page is the requested slice of that result and holds only such offers, the total is the number of flights shown, and the counts and the degraded flag are true |
| Aggregation.DegradedSearchIsExact | app/services/aggregation.py:84-123 | a degraded search, its providers finishing in any order, gives what the answering providers would have given alone, for every filter and sort order |
| Aggregation.WalkShowsEverySurvivorOnce | app/services/aggregation.py:84-107 | paging through a search shows exactly the offers described by `ResultIsExact`, each once, in the requested order |
| Aggregation.FirstByPriceIsLowest | app/services/aggregation.py:84-107 | a price-sorted page of one holds the lowest price over all raw offers of all providers that answered |
| Hotels.HotelFiltersCommute | app/services/hotel_aggregation.py:36-44 | hotel filters may be applied before de-duplication iff they demand no rating and no amenity, or let nothing through: a rating above five or a negative cap |
| Hotels.RatingsTellTheOrdersApart | app/services/hotel_aggregation.py:36-44 | two entries for one hotel and price on which filtering by rating before and after de-duplication differ |
| Hotels.HotelsLeft | app/services/hotel_aggregation.py:36-44 | of every hotel the cheapest entry is left, among equally cheap ones the first, provided it meets the rating, the cap and every amenity |
| Hotels.HotelScoreIsWeighted | app/services/hotel_aggregation.py:138-145 | the best rating at the lowest price scores one, the rating weighs six tenths and the price four |
| Hotels.RankHotels | app/services/hotel_aggregation.py:129-146 | the loop gives every hotel its rounded score |
| Hotels.HotelScoresAreSound | app/services/hotel_aggregation.py:138-145 | hotel scores lie in [0, 1], and a hotel no dearer and no worse rated never scores lower |
| PriceMonitors.CheapestIsLowest | app/services/price_monitor.py:66-79 | the fare of an alert is the minimum over all raw offers of the answering providers, absent iff the date is bad or nobody offers anything |
| PriceMonitors.FiresOnTheLowestPrice | app/services/price_monitor.py:53-64 | an alert fires iff that minimum is at most its target and telling the owner does not raise; if it does raise the run is aborted; a notice leaves in either case unless there is no owner or the exception comes first |
| PriceMonitors.EveryMomentIsJustified | app/services/price_monitor.py:44-64 | wherever a run ends, every alert switched off so far had its owner told the lowest price already, or has no owner |
| PriceMonitors.TriggeredCounts | app/services/price_monitor.py:44-51 | `triggered` is the number of alerts the run has switched off |
| PriceMonitors.RunsNotifyOnce | app/services/price_monitor.py:44-64 | wherever a run ends, it has sent at most one notice per alert, and unless a check raised no notified alert is still active in its session |
| PriceMonitors.PriceMonitor.Check | app/services/price_monitor.py:53-64 | the method changes the alert and notifies as specified, also when a collaborator raises |
| PriceMonitors.PriceMonitor.LowestFare | app/services/price_monitor.py:66-79 | the fare is the first price of a price-sorted search page of one |
| PriceMonitors.PriceMonitor.RunOnce | app/services/price_monitor.py:44-51 | the loop over the alert objects does what the specified run does, and reports only if nothing raised |
| Workers.CommittedMeansTold | app/workers/tasks.py:25-37 | a row changes only by a committed run, only because its target is met, and only after its owner was told during that run; a committed run leaves no met target active |
| Workers.ReportCountsTheFired | app/workers/tasks.py:35-39 | what a run returns is the number of rows it durably switched off; one that returns nothing switched off none, unless something raised after the commit |
| Workers.EachAlertFiresOnce | app/workers/tasks.py:25-37 | over any history of serialized runs each alert is switched off at most once, and the reported counts add up to the number switched off, less that of runs in which something raised after the commit |
| Workers.RepeatsFollowAbandonedRuns | app/workers/tasks.py:25-39 | over any history, a second notice for an alert leaves only if every run that sent one before was abandoned |
| Workers.OneNoticePerAlert | app/workers/tasks.py:25-39 | where every run is committed, no alert is notified about twice |
| Workers.AbandonedRunRepeats | app/workers/tasks.py:25-39 | a failed commit and a second run send the same notice twice |
| Workers.Database.MonitorPrices | app/workers/tasks.py:25-39 | loading, running, committing and closing, cut off anywhere or raising anywhere, have exactly that effect on the rows, the notices and the returned count |

## Left out

- Routers, middleware, metrics, logging, error rendering, CORS and security headers: plumbing without a deep invariant.
- SQLAlchemy repositories, migrations and engine setup: storage is a map with a commit, only where the monitor needs it.
- Argon2, JWT signing and SHA-256: a token is authentic or not, and a cache key is provider plus digest.
- httpx, SMTP, Celery and the Redis client: only the documented effect of each call is modelled; the Redis cache is taken to behave like the in-memory one.
- Providers, weather and currency adapters, proxy trust, settings parsing and password rules: short branches that would add only easy members.
- Optional users, password reset, email verification and refresh rotation: no run-level promise is made there.
- The rest of hotel search: it is the flight pipeline again, on the same merging, sorting and paging theory.
- Time zones: a departure is an instant and its ISO text, and comparing naive with aware times (an error in Python) does not occur.
- Negative page limits, which the API refuses, and cursors beyond Python's limit on integer digits.
- Aggregation.ScoresAreFractions: exact real arithmetic; binary floating-point error and the way `round` sees it are not modelled.
- Pagination.CursorRoundTrip: what the lenient Python parsers make of malformed cursors is left open; only that the offset is never negative is used.
- TokenBlocklists.GateIsExact: identifiers are taken to be unique per token, as random UUIDs are, so that revocations under one identifier carry one expiry.
- HttpClients.ResilientHttpClient.GetJson: covers a call during which no other takes a step; interleaved calls are in CachedReads on logs instead of objects.
- Workers.EachAlertFiresOnce: runs are serialized; two runs of the task at once are not modelled.
- Tokens.RefusalIsFinal: a not-before claim, which no minted token carries, is not modelled.
