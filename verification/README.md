# Chansey: a verified model of its stateful services

Chansey is a crypto portfolio and trading platform. This project models the parts of its API whose
behaviour spans many calls and proves what those parts promise, for every input and every run:

- the **audit hash chain**: how entries are written and linked, and exactly which tampering, deletion or
  partial reading the verifiers notice;
- **login lockout and one-time passwords**, one state machine over the stored user row;
- the **exchange client pool**, under every interleaving of calls at their awaits;
- the **market regime engine**: rolling volatility and percentile, the linked regime history, the cached
  composite regime with its stale fallback and notification, and the plurality gate;
- **diversity pruning** of a ranked coin shortlist;
- **account value history**: calendar buckets, grouping, down-sampling;
- **failure-spike alerts** and **delistings as of a date**, each compared with the full event history.

Each `.dfy` file is one module named after its component. `Common.dfy` holds the optional value and three
facts about sequences. Operations that update a stored row, a map or a service field are class methods
proved equal to a transition function on values; loops are methods with invariants; theorems about runs are
lemmas about the transition functions. Pure expressions are functions.

## How the model reads the code

- **Hashing.** SHA-256 is a parameter: any function from hashed documents to 64-character digests. It is not
  assumed injective. Where a collision would matter, the hypothesis is that it has none among the documents
  that the logs in question make the verifier hash. JSON text is taken as a faithful encoding of the
  document, and stored JSON reads back unchanged.
- **Row store.** Row ids are new. `ORDER BY` returns any order consistent with the key, so ties are free.
- **Clock, randomness, I/O.** Times are integer milliseconds passed in. A request that reads the clock to
  check and again to write has two times. bcrypt is an abstract match predicate; fresh hashes come with the
  request. Lookups, candle queries, price data and refresh inputs are parameters, failures included.
- **Numbers.** Amounts, prices and returns are reals. The square root is a parameter; nearly all results hold
  for any function in its place. The logarithm of the Parkinson method is a parameter with log 2 > 0.
- **Client pool.** Clients are numbered; the set of closed clients is bookkeeping of the model. A code path
  between two awaits is one step. A client constructor that throws is the step in which no keys are found.

## What the proofs found

- The full log verifies, in whatever order the database returns ties, exactly when timestamps strictly
  increase in creation order (`EveryReadingVerifiesIffStrict`). Two creates in one millisecond are enough for
  a reading that is reported as tampered.
- Verifying a part of a valid log, such as one entity's entries, a date range or a later page, reports it
  valid exactly when the part contains every entry before each of its entries (`PartVerdict`,
  `RangeVerifiesIffNothingBefore`, `WindowFlags`). The comments of `audit-chain.service.ts` present these
  calls as checks of the part itself; the model follows the code.
- The lockout counter survives an expired lock, so each later wrong password locks again. The resulting bound
  of five per clearing, plus five, plus one per lockout period is attained (`LockoutBoundIsTight`).
- The current volatility is that of the last rolling window exactly when no recent base price is zero or there
  are no earlier returns (`RecentReturnsAreLastWindowIff`). Then the percentile is below 100; otherwise it can
  be exactly 100 (`ZeroPriceReaches100`). Whether it is depends on all the prices, so that condition is one-way.
- A regime change whose insert fails after the old row was closed leaves an asset with rows and no open one, and
  the next detection starts a new chain. All histories are linked exactly when no change was interrupted there
  (`LinkedIffNeverInterrupted`).
- A coin's volatility regime is returned at any age (`OldVolatilityIsReturned`), unlike the composites.
- Diversity selection is free of known high correlations exactly when no backfill ran
  (`UncorrelatedIffNoBackfill`). `pruneByDiversity` accepts any `take`; `SizeIsAsAskedIff` says for which the
  size is right. Of its callers the preview (`coin.controller.ts`) asks for at least one coin and the selection
  for a stored count, so a `take` below one is a property of the function, not of a known request.
- The failure window agrees with the full history exactly while no failure that an earlier call pruned comes back
  into the window (`PrunedIsFullIffNoneReenters`), and the alerts are right exactly while every spike keeps five
  failures never pruned (`AlertsAgreeIffSpikesKept`). Both hold for a clock that does not go back. One that does
  can hide a spike (`ClockStepHidesSpike`) but never causes a false alert (`AlertHasFiveInWindow`).
- Bucket starts stay at or before their times, and never go back, exactly outside the years 0 to 99, which
  `Date.UTC` reads as 1900 to 1999 (`BucketStartNotAfter`, `BucketStartMonotoneIff`).

## Model

| member | source | states |
|---|---|---|
| AuditCrypto.VerifyLinks | apps/api/src/common/crypto.service.ts:191-248 | the report: verified count, flagged ids in order, first broken index, valid exactly when no link is broken |
| AuditCrypto.FlaggedIdsCount | apps/api/src/common/crypto.service.ts:222-239 | one reported id per flagged position |
| AuditCrypto.FlaggedIdsMeaning | apps/api/src/common/crypto.service.ts:231-238 | an id is reported exactly when an entry with it has a broken link |
| AuditCrypto.Distinct | apps/api/src/audit/audit-chain.service.ts:79 | deduplication keeps every id once and adds none |
| AuditCrypto.VerifyAuditChain | apps/api/src/audit/audit-chain.service.ts:48-89 | valid exactly when every link and every integrity hash is right; reported ids are those of the bad entries, each once; first broken index |
| AuditCrypto.IntegrityFailuresMeaning | apps/api/src/audit/audit-chain.service.ts:72-77 | an id is an integrity failure exactly when an entry with it has a wrong integrity hash |
| AuditCrypto.LastHashCommits | apps/api/src/common/crypto.service.ts:129-248 | two fully linked verified logs ending in the same chain hash have equal length and agree entry by entry |
| AuditCrypto.LastHashCommitsToContents | apps/api/src/common/crypto.service.ts:34-74 | with integrity hashes checked they also record the same event, entity, user, time, states and metadata, up to absent or falsy values |
| AuditCrypto.SelectedLink | apps/api/src/common/crypto.service.ts:160-183 | in a part of a valid log a link verifies exactly when the original predecessor stands right before |
| AuditCrypto.SelectionFlags | apps/api/src/audit/audit-chain.service.ts:94-152 | a part of a valid log is flagged exactly at its gaps |
| AuditCrypto.RemovalFlagsSuccessor | apps/api/src/common/crypto.service.ts:160-248 | deleting an entry flags exactly its successor; deleting the last is not noticed |
| AuditCrypto.WindowFlags | apps/api/src/common/crypto.service.ts:160-248 | a contiguous window is flagged only at index 0, exactly when it does not start at the genesis entry |
| AuditCrypto.EditFlagsEntry | apps/api/src/common/crypto.service.ts:160-248 | rewriting a committed field flags exactly that entry |
| AuditCrypto.SameDocumentIffSameContents | apps/api/src/common/crypto.service.ts:34-56 | the hashed document is the same exactly when every content field is, up to absent or falsy values |
| AuditCrypto.RewriteIsReported | apps/api/src/audit/audit-chain.service.ts:48-89 | rewriting contents while keeping the integrity hash makes the entry an integrity failure if and only if some field differs |
| AuditCrypto.ErasedHashFlagsSuccessor | apps/api/src/common/crypto.service.ts:160-183 | erasing a chain hash is not noticed at the entry, which counts as legacy, and flags exactly its successor |
| AuditLogStore.AuditService.FindLatestExcept | apps/api/src/audit/audit.service.ts:77-81 | a row with the latest timestamp among the others, if there are others |
| AuditLogStore.AuditService.CreateAuditLog | apps/api/src/audit/audit.service.ts:35-105 | appends one row with the given contents, a right integrity hash and a link to a latest earlier row; keeps the table well created |
| AuditLogStore.AuditService.VerifyGlobalAuditChain | apps/api/src/audit/audit-chain.service.ts:107-131 | with increasing timestamps the log from offset 0 is valid and reports nothing; a later page is broken at index 0, reports exactly its first entry and verifies all others |
| AuditLogStore.AuditService.VerifyMultipleEntries | apps/api/src/audit/audit.service.ts:172-187 | verified and failed partition the logs, failed ids in order |
| AuditLogStore.AuditService.VerifyPart | apps/api/src/audit/audit-chain.service.ts:94-152 | a part of the stored log is valid exactly when it contains all entries before its entries; it reports exactly the entries whose predecessor is not in the part |
| AuditLogStore.CreatedLogVerifies | apps/api/src/audit/audit-chain.service.ts:48-89 | after any run of non-overlapping creates with increasing timestamps the full log verifies |
| AuditLogStore.OnlyReading | apps/api/src/audit/audit-chain.service.ts:107-112 | with distinct timestamps the only ordered reading is creation order |
| AuditLogStore.PageVerdict | apps/api/src/audit/audit-chain.service.ts:107-131 | verdict of any page of a valid log |
| AuditLogStore.PageIsSlice | apps/api/src/audit/audit-chain.service.ts:107-131 | a page holds limit rows from offset on, as many as there are |
| AuditLogStore.PartVerdict | apps/api/src/audit/audit-chain.service.ts:94-152 | a part of a valid log passes exactly when it is downward closed |
| AuditLogStore.PartReports | apps/api/src/audit/audit-chain.service.ts:94-152 | a part of a valid log reports exactly the selected entries whose predecessor in the log is not selected |
| AuditLogStore.RangeVerifiesIffNothingBefore | apps/api/src/audit/audit-chain.service.ts:136-174 | a date range is downward closed exactly when it is empty or nothing precedes it |
| AuditLogStore.EntityVerifiesIffItOpensLog | apps/api/src/audit/audit-chain.service.ts:94-105 | an entity's entries are downward closed exactly when they open the log |
| AuditLogStore.ChainHashesDiffer | apps/api/src/audit/audit.service.ts:73-98 | different created rows carry different chain hashes, and none reads as the genesis marker |
| AuditLogStore.WrongPredecessor | apps/api/src/common/crypto.service.ts:160-183 | a created row does not verify behind any row but the one it was linked to |
| AuditLogStore.LateStampBreaksReading | apps/api/src/audit/audit.service.ts:73-98 | a row stamped no later than an earlier row yields an ordered reading that fails |
| AuditLogStore.EveryReadingVerifiesIffStrict | apps/api/src/audit/audit.service.ts:35-105 | every ordered reading verifies if and only if timestamps strictly increase in creation order |
| AccountAccess.UserRow.SendLoginOtp | apps/api/src/authentication/otp.service.ts:35-50 | stores the new code hash and expiry, clears its failures, changes nothing else |
| AccountAccess.UserRow.GetAuthenticatedUser | apps/api/src/authentication/authentication.service.ts:169-297 | exactly when a login has which outcome, over the columns, and what each outcome does to every column |
| AccountAccess.CeilMinutes | apps/api/src/authentication/authentication.service.ts:205-208 | the reported waiting time is the least number of whole minutes that covers the remaining lock |
| AccountAccess.UserRow.VerifyOtpCode | apps/api/src/authentication/otp.service.ts:52-106 | exactly when a code check has which outcome, and what each does to every column |
| AccountAccess.UserRow.ResendOtpCode | apps/api/src/authentication/otp.service.ts:108-130 | suppressed exactly within a minute of the last send, else a new code |
| AccountAccess.UserRow.ResetForgottenPassword | apps/api/src/authentication/authentication.service.ts:374-406 | exactly when a reset succeeds; errors leave the row alone; success stores the new hash and clears token, failures and lock |
| AccountAccess.LockoutBudgetStep | apps/api/src/authentication/authentication.service.ts:204-239 | one request keeps the throttling budget |
| AccountAccess.LockoutBound | apps/api/src/authentication/authentication.service.ts:204-239 | in any stretch of any run, from any row, wrong passwords compared are at most five per clearing, plus five, plus one per lockout period |
| AccountAccess.LockoutBoundIsTight | apps/api/src/authentication/authentication.service.ts:204-239 | for every n some run reaches the bound with n lockout periods |
| AccountAccess.OtpStateStep | apps/api/src/authentication/otp.service.ts:52-93 | what a request that sends no code does to the pending code |
| AccountAccess.IssuedOtpIsLimited | apps/api/src/authentication/otp.service.ts:52-93 | until the next send a code is compared at most three times, accepted at most once, only on a match and not after expiry |
| AccountAccess.AcceptanceTracesToSend | apps/api/src/authentication/otp.service.ts:35-106 | every acceptance belongs to one earlier send with no send or acceptance between, unexpired, after at most two wrong codes |
| AccountAccess.LastLoginChanges | apps/api/src/authentication/authentication.service.ts:246-263 | the last login changes only at a login without a second factor or an accepted code |
| AccountAccess.OtpGuardsLogin | apps/api/src/authentication/authentication.service.ts:246-253 | with one-time passwords enabled it changes only when a sent, unexpired, unused code is accepted |
| AccountAccess.ExpiryRemembersSend | apps/api/src/authentication/otp.service.ts:38-44 | expiry minus lifetime is no earlier than any send since the last acceptance |
| AccountAccess.ResendCooldown | apps/api/src/authentication/otp.service.ts:108-130 | a resend comes at least 60 seconds after an earlier send unless a code was accepted between |
| AccountAccess.ResetTokenWorksOnce | apps/api/src/authentication/authentication.service.ts:374-406 | between two password resets with the same token that token was issued again |
| AccountAccess.ResetPasswordRules | apps/api/src/authentication/authentication.service.ts:374-406 | from a reset until the password changes again exactly the passwords that match the new hash pass |
| ClientPool.ExchangeClientPool.constructor | apps/api/src/exchange/exchange-client-pool.ts:5-12 | starts empty |
| ClientPool.ExchangeClientPool.Touch | apps/api/src/exchange/exchange-client-pool.ts:27-29 | sets the last use of one key |
| ClientPool.ExchangeClientPool.Set | apps/api/src/exchange/exchange-client-pool.ts:18-21 | stores a client and its last use |
| ClientPool.ExchangeClientPool.EvictKey | apps/api/src/exchange/exchange-client-pool.ts:67-75 | closes the client of a key and forgets the key |
| ClientPool.ExchangeClientPool.EvictStale | apps/api/src/exchange/exchange-client-pool.ts:62-79 | evicts and closes exactly the non-permanent keys idle for longer than the limit |
| ClientPool.EvictOneMore | apps/api/src/exchange/exchange-client-pool.ts:64-78 | one iteration of the eviction loop handles exactly its own key |
| ClientPool.BaseExchangeService.GetSharedClient | apps/api/src/exchange/base-exchange.service.ts:135-182 | reuse, wait, fail or create for the default and the public client |
| ClientPool.BaseExchangeService.ResumeGetClient | apps/api/src/exchange/base-exchange.service.ts:91-114 | reuse and touch, wait, or create for the user of the call |
| ClientPool.InvStep | apps/api/src/exchange/base-exchange.service.ts:71-129 | every atomic step keeps the pool invariant |
| ClientPool.InvAlways | apps/api/src/exchange/exchange-client-pool.ts:14-79 | under every interleaving: equal key sets, one live client per key, every created client pooled or closed |
| ClientPool.PermanentClientsStay | apps/api/src/exchange/exchange-client-pool.ts:62-66 | a pooled default or public client stays the same for the rest of the run |
| ClientPool.RecentClientStays | apps/api/src/exchange/exchange-client-pool.ts:59-79 | a pooled client stays open until a step later than its last use plus the limit |
| ClientPool.HandedOutOpenIffPooled | apps/api/src/exchange/base-exchange.service.ts:95-114 | a client handed out is open exactly when it is pooled |
| ClientPool.UserKeyInjective | apps/api/src/exchange/base-exchange.service.ts:93 | different users have different keys |
| ClientPool.ClientIsOwn | apps/api/src/exchange/base-exchange.service.ts:71-129 | a client handed out was created in a step that served the same user, or the default or public owner |
| ClientPool.OwnersNeverShare | apps/api/src/exchange/base-exchange.service.ts:71-182 | two steps that hand out the same client serve the same owner |
| ClientPool.CallHasBegin | apps/api/src/exchange/base-exchange.service.ts:71-87 | a suspended call serves the user it was begun for |
| ClientPool.GetClientEvictsIdle | apps/api/src/exchange/exchange-client-pool.ts:62-79 | a beginning getClient closes exactly the user clients idle for more than thirty minutes |
| ClientPool.HandsOutIff | apps/api/src/exchange/base-exchange.service.ts:71-182 | exactly when a step hands out a client, with the default one needing a configuration |
| ClientPool.UsedClientStaysOpen | apps/api/src/exchange/base-exchange.service.ts:95-114 | a user client that a call reuses or creates stays pooled and open for the idle limit |
| ClientPool.SettlingStep | apps/api/src/exchange/base-exchange.service.ts:110-114 | with prompt settlement pending creations stay pooled |
| ClientPool.PromptRunHandsOutOpenClients | apps/api/src/exchange/base-exchange.service.ts:71-182 | if creations settle within the limit every client handed out is open |
| Volatility.CalculateReturns | apps/api/src/market-regime/volatility.calculator.ts:143-154 | the loop computes the simple returns, skipping zero bases |
| Volatility.ReturnsSplit | apps/api/src/market-regime/volatility.calculator.ts:143-154 | the returns of a series split at any price |
| Volatility.ReturnsLeadBack | apps/api/src/market-regime/volatility.calculator.ts:143-154 | without a zero base each price is the one before times one plus its return |
| Volatility.CalculateExponentialVariance | apps/api/src/market-regime/volatility.calculator.ts:97-113 | the loop computes the weighted variance |
| Volatility.VarianceZeroIffConstant | apps/api/src/market-regime/volatility.calculator.ts:83-91 | standard variance is nonnegative, and zero exactly when all returns are equal |
| Volatility.VarianceByMoments | apps/api/src/market-regime/volatility.calculator.ts:83-91 | standard variance is the mean of the squares less the square of the mean |
| Volatility.SumPermuted | apps/api/src/market-regime/volatility.calculator.ts:86-88 | a sum counts every element, in any order |
| Volatility.NewestWeighsOne | apps/api/src/market-regime/volatility.calculator.ts:105-109 | the newest term weighs one and makes all older ones decay by lambda |
| Volatility.ExponentialVarianceBounds | apps/api/src/market-regime/volatility.calculator.ts:97-113 | exponential variance lies between the least and the greatest squared deviation |
| Volatility.CalculateParkinsonVariance | apps/api/src/market-regime/volatility.calculator.ts:119-138 | the loop computes the Parkinson variance |
| Volatility.ParkinsonZeroIffFlat | apps/api/src/market-regime/volatility.calculator.ts:119-138 | Parkinson variance is nonnegative, and zero exactly when no step leads from a positive price to a different positive one |
| Volatility.ParkinsonOfDoubling | apps/api/src/market-regime/volatility.calculator.ts:119-138 | doubling prices have the Parkinson variance log(2) / 4 |
| Volatility.CalculateRealizedVolatility | apps/api/src/market-regime/volatility.calculator.ts:17-49 | fails exactly on too few prices, else the annualized volatility by the configured method |
| Volatility.VolatilitySquared | apps/api/src/market-regime/volatility.calculator.ts:43-47 | its square is the variance times the annualization factor |
| Volatility.ExponentialMethod | apps/api/src/market-regime/volatility.calculator.ts:26-36 | the exponential method weighs each recent return 0.94 times as much as the next |
| Volatility.ParkinsonMethod | apps/api/src/market-regime/volatility.calculator.ts:37-39 | the Parkinson method looks at the last rolling days and the price before them |
| Volatility.CalculatePercentile | apps/api/src/market-regime/volatility.calculator.ts:54-78 | the rank among all rolling windows, with its error and NaN cases |
| Volatility.PercentileCountsWindows | apps/api/src/market-regime/volatility.calculator.ts:54-78 | 100 times the number of windows with a lower volatility over the number of windows; exactly when it is refused or undefined |
| Volatility.CountBelowCounts | apps/api/src/market-regime/volatility.calculator.ts:74 | the filter counts the positions with a lower value |
| Volatility.PercentileGrows | apps/api/src/market-regime/volatility.calculator.ts:74-75 | a higher current volatility never has a lower percentile |
| Volatility.RecentReturnsAreLastWindowIff | apps/api/src/market-regime/volatility.calculator.ts:26-71 | the current returns are those of the last window if and only if no recent base price is zero or there are no earlier returns |
| Volatility.PercentileInRange | apps/api/src/market-regime/volatility.calculator.ts:17-78 | then, with the standard method, the history is not empty and the percentile is in [0, 100) |
| Volatility.DetermineRegime | libs/api-interfaces/src/lib/market/market-regime.interface.ts:62-99 | a percentile in [0, 100) lies between the published thresholds of its regime |
| Volatility.ZeroPriceReaches100 | apps/api/src/market-regime/volatility.calculator.ts:146-151 | a series with a zero price whose percentile is 100 |
| Volatility.ReadMarket | apps/api/src/market-regime/market-regime.service.ts:40-47 | volatility, percentile and regime of a detection, or the exception |
| Volatility.ReadingScaleInvariant | apps/api/src/market-regime/volatility.calculator.ts:54-113 | none of them changes when all prices are multiplied by a positive constant |
| RegimeHistory.MarketRegimeService.GetCurrentRegime | apps/api/src/market-regime/market-regime.service.ts:72-77 | a latest detected open row of the asset, or none if it has none |
| RegimeHistory.MarketRegimeService.CreateRegime | apps/api/src/market-regime/market-regime.service.ts:132-160 | appends one open row, or throws and stores nothing |
| RegimeHistory.MarketRegimeService.HandleRegimeChange | apps/api/src/market-regime/market-regime.service.ts:101-127 | closes the current row and appends a successor linked to it, up to the save or the impact estimate that throws |
| RegimeHistory.MarketRegimeService.DetectRegime | apps/api/src/market-regime/market-regime.service.ts:35-67 | the table after every failure; histories stay linked exactly without an interrupted change; returns the open row with the detected regime unless it throws; leaves closed rows alone |
| RegimeHistory.DetectedKeepsHistory | apps/api/src/market-regime/market-regime.service.ts:49-67 | whatever fails, a detection keeps every history chained with at most one open end, and keeps it linked exactly when it does not stop between closing and inserting |
| RegimeHistory.NextLinkedIff | apps/api/src/market-regime/market-regime.service.ts:49-67 | only an interrupted change breaks a linked history, and nothing repairs a broken one |
| RegimeHistory.LinkedIffNeverInterrupted | apps/api/src/market-regime/market-regime.service.ts:35-127 | over any run, failures included, all histories are linked if and only if no change was interrupted |
| RegimeHistory.OpenRowReachesWholeHistory | apps/api/src/market-regime/market-regime.service.ts:72-77 | the open row is unique and its links visit its chain, newest first; that is the whole history exactly when it is linked |
| RegimeHistory.OneOpenRowAfterDetection | apps/api/src/market-regime/market-regime.service.ts:35-77 | at every point of an uninterrupted run after a detection got past its insert: one open row, whose links visit every row of the asset once |
| RegimeHistory.ClosedRowsNeverChange | apps/api/src/market-regime/market-regime.service.ts:101-127 | a row closed at some point of a run is the same row ever after |
| RegimeHistory.RowHasDetection | apps/api/src/market-regime/market-regime.service.ts:132-160 | every row of a run records one of its detections, at the time of the insert |
| RegimeHistory.ClosedRowHasDetection | apps/api/src/market-regime/market-regime.service.ts:101-112 | every closed row was closed at the time of a detection that found another regime |
| RegimeHistory.RegimesTileTime | apps/api/src/market-regime/market-regime.service.ts:101-127 | with an ordered clock an asset's regimes follow each other without overlap, whatever failed |
| CompositeRegime.CompositeRegimeService.TrackFailure | apps/api/src/market-regime/composite-regime.service.ts:406-419 | counts a failure and notifies once at the third |
| CompositeRegime.CompositeRegimeService.Refresh | apps/api/src/market-regime/composite-regime.service.ts:232-309 | new cache and failure state, and the answer, of every branch |
| CompositeRegime.RefreshStores | apps/api/src/market-regime/composite-regime.service.ts:264-300 | a successful refresh stores the trend of the last close against the mean of the last 200, and the class |
| CompositeRegime.FailsIff | apps/api/src/market-regime/composite-regime.service.ts:232-275 | a refresh fails exactly without 200 closes to average |
| CompositeRegime.SmaRolls | apps/api/src/market-regime/composite-regime.service.ts:264-275 | one more close enters the average and the one 200 before it leaves |
| CompositeRegime.CompositeRegimeService.GetCompositeRegime | apps/api/src/market-regime/composite-regime.service.ts:109-124 | the cached composite, NEUTRAL without data or after four hours |
| CompositeRegime.CompositeRegimeService.GetCacheStatus | apps/api/src/market-regime/composite-regime.service.ts:153-157 | fresh exactly up to four hours; stale implies a NEUTRAL composite |
| CompositeRegime.CompositeRegimeService.GetCompositeRegimeForCoin | apps/api/src/market-regime/composite-regime.service.ts:171-212 | answer and both per-coin caches of every branch |
| CompositeRegime.CoinAnswerOrigin | apps/api/src/market-regime/composite-regime.service.ts:171-212 | over any run a per-coin answer is the BTC composite or comes from a row of that coin found under four hours before |
| CompositeRegime.CoinAnswerIs | apps/api/src/market-regime/composite-regime.service.ts:171-212 | exactly what a per-coin call answers, over any run |
| CompositeRegime.ConsultsIff | apps/api/src/market-regime/composite-regime.service.ts:175-192 | exactly when the stored regimes are consulted |
| CompositeRegime.ConsultationsAreSpaced | apps/api/src/market-regime/composite-regime.service.ts:175-206 | over any run the stored regimes of a coin are consulted at most once in four hours |
| CompositeRegime.VolatilityIsLastStored | apps/api/src/market-regime/composite-regime.service.ts:222-226 | over any run a coin's volatility regime is the one that the last storing call found, whatever its age, and unknown only before the first |
| CompositeRegime.OldVolatilityIsReturned | apps/api/src/market-regime/composite-regime.service.ts:222-226 | an entry of any age is still returned when the composite answer has fallen back |
| CompositeRegime.ClassifyMeaning | libs/api-interfaces/src/lib/market/market-regime.interface.ts:73-87 | exactly when the market is BULL, NEUTRAL, BEAR or EXTREME |
| CompositeRegime.OneNotificationPerOutage | apps/api/src/market-regime/composite-regime.service.ts:290-291 | notifications are as many as maximal failure runs of length at least three, each at the third failure |
| CompositeRegime.ThirdFailure | apps/api/src/market-regime/composite-regime.service.ts:406-411 | a failure completes a long outage exactly when two precede it |
| CompositeRegime.NonNeutralIsFresh | apps/api/src/market-regime/composite-regime.service.ts:109-124 | a composite other than NEUTRAL is the classification of the last successful refresh, at most four hours old |
| CompositeRegime.CompositeIs | apps/api/src/market-regime/composite-regime.service.ts:109-124 | exactly what the composite is after any run of refreshes: the last success for four hours, else NEUTRAL |
| RegimeFitness.CountVotes | apps/api/src/market-regime/regime-fitness.service.ts:138-141 | the counts are the numbers of coins per composite |
| RegimeFitness.SortTallies | apps/api/src/market-regime/regime-fitness.service.ts:142 | all counts, each once, in descending order |
| RegimeFitness.MajorityVote | apps/api/src/market-regime/regime-fitness.service.ts:136-145 | the unique plurality if there is one, else the BTC-global composite |
| RegimeFitness.TopTally | apps/api/src/market-regime/regime-fitness.service.ts:142-144 | the two top counts decide whether there is a unique plurality |
| RegimeFitness.SnapshotRegime | apps/api/src/market-regime/regime-fitness.service.ts:64-80 | the vote over the distinct uppercase symbols, with the BTC trend and the cache status |
| RegimeFitness.FreshSnapshotUsesData | apps/api/src/market-regime/regime-fitness.service.ts:64-80 | a snapshot that is not stale holds the unique plurality or a BTC composite at most four hours old |
| RegimeFitness.SnapshotIgnoresOrderAndRepetition | apps/api/src/market-regime/regime-fitness.service.ts:64-80 | the snapshot depends only on the set of uppercase symbols |
| RegimeFitness.UniverseHasLowVolatility | apps/api/src/market-regime/regime-fitness.service.ts:152-157 | true exactly when some coin is in the low-volatility regime |
| RegimeFitness.Evaluate | apps/api/src/market-regime/regime-fitness.service.ts:86-130 | exactly when the gate blocks, and exactly when each allowance applies |
| CoinDiversity.KeysAscend | apps/api/src/coin/coin-diversity.service.ts:46-53 | candles in time order give strictly ascending map keys |
| CoinDiversity.LastCloseWins | apps/api/src/coin/coin-diversity.service.ts:47-50 | each timestamp has the close of its last candle |
| CoinDiversity.PearsonSymmetric | apps/api/src/common/metrics/correlation.calculator.ts:22-51 | correlation is symmetric in its series |
| CoinDiversity.PearsonOfSame | apps/api/src/common/metrics/correlation.calculator.ts:22-51 | a series that is not constant has correlation 1 with itself |
| CoinDiversity.PearsonBounded | apps/api/src/common/metrics/correlation.calculator.ts:22-51 | a correlation lies between -1 and 1 |
| CoinDiversity.PearsonAffine | apps/api/src/common/metrics/correlation.calculator.ts:22-51 | scaling and shifting a series keeps its correlations, turning it around changes their sign |
| CoinDiversity.ComputePairwiseCorrelation | apps/api/src/coin/coin-diversity.service.ts:122-159 | the aligned-returns correlation, unknown for missing or short history |
| CoinDiversity.CorrelationOfSymmetric | apps/api/src/coin/coin-diversity.service.ts:122-159 | it is symmetric for ascending price maps |
| CoinDiversity.KnownIff | apps/api/src/coin/coin-diversity.service.ts:122-159 | known exactly with 31 common times and 30 usable steps; a veto exactly when known and above 0.85 |
| CoinDiversity.AlignedWithoutZeros | apps/api/src/coin/coin-diversity.service.ts:141-152 | without zero prices the aligned returns are the returns of both series |
| CoinDiversity.SameTimesCorrelation | apps/api/src/coin/coin-diversity.service.ts:122-159 | coins with the same times and no zero price have the correlation of the returns of their series |
| CoinDiversity.SameHistoryVetoes | apps/api/src/coin/coin-diversity.service.ts:122-159 | coins with the same long enough, not constant return history veto each other |
| CoinDiversity.IsRejected | apps/api/src/coin/coin-diversity.service.ts:82-89 | rejected exactly when some pick vetoes the candidate |
| CoinDiversity.PruneByDiversity | apps/api/src/coin/coin-diversity.service.ts:36-114 | equals greedy selection with vetoes and backfill, with the no-data fallback |
| CoinDiversity.PrunedSelection | apps/api/src/coin/coin-diversity.service.ts:36-114 | exactly min(take, size) distinct shortlisted coins led by rank 1 |
| CoinDiversity.SizeIsAsAskedIff | apps/api/src/coin/coin-diversity.service.ts:36-114 | for any take, the size is as asked for if and only if take is at least one, the list is empty, or there is no price data and the slice is empty |
| CoinDiversity.NoCorrelatedPicks | apps/api/src/coin/coin-diversity.service.ts:63-95 | without backfill no two picks have a known correlation above the threshold, in either order |
| CoinDiversity.VetoedByEarlierPick | apps/api/src/coin/coin-diversity.service.ts:66-95 | every offered coin that is not picked has an earlier-ranked pick that vetoes it |
| CoinDiversity.UncorrelatedIffNoBackfill | apps/api/src/coin/coin-diversity.service.ts:97-111 | the selection is free of known high correlations exactly when no backfill was needed |
| CoinDiversity.BackfillFollowsRank | apps/api/src/coin/coin-diversity.service.ts:97-111 | if backfill leaves a coin out, the coins it adds all rank before that one |
| CoinDiversity.CutInRankOrder | apps/api/src/coin/coin-diversity.service.ts:37-62 | without price data the list is cut in rank order |
| CoinDiversity.QueriedMapsAscend | apps/api/src/coin/coin-diversity.service.ts:44-53 | the price maps built from time-ordered candles meet the assumptions of these results |
| UtcCalendar.YearLength | apps/api/src/balance/balance-history.service.ts:335-338 | the year formula of ECMA-262 section 21.4.1 has years of 365 or 366 days by the leap rule |
| UtcCalendar.Epoch | apps/api/src/balance/balance-history.service.ts:335-338 | day 0 starts 1970 and is a Thursday; weekdays follow each other |
| UtcCalendar.MonthHasItsLength | apps/api/src/balance/balance-history.service.ts:335-338 | the months have their lengths and a date lies within its month |
| UtcCalendar.BucketStartIsBucket | apps/api/src/balance/balance-history.service.ts:334-364 | the bucket is the start of the hour, day, Sunday week or month, except for years 0 to 99 |
| UtcCalendar.SameBucketIffSamePeriod | apps/api/src/balance/balance-history.service.ts:334-364 | two times share a bucket exactly when they lie in the same hour, day, Sunday week or month |
| UtcCalendar.BucketStartMonotone | apps/api/src/balance/balance-history.service.ts:334-364 | from a time outside the years 0 to 99 on, bucket starts never go back, for every interval |
| UtcCalendar.BucketStartMonotoneIff | apps/api/src/balance/balance-history.service.ts:334-364 | bucket starts never go back from a time on if and only if it lies outside the years 0 to 99 |
| UtcCalendar.BucketStartNotAfter | apps/api/src/balance/balance-history.service.ts:334-364 | a bucket starts at or before its time exactly outside the years 0 to 99 |
| BalanceHistory.GroupBalances | apps/api/src/balance/balance-history.service.ts:135-154 | the loop builds the grouping record |
| BalanceHistory.GroupingKeepsLatest | apps/api/src/balance/balance-history.service.ts:147-153 | for rows in any order each bucket and exchange holds a latest balance, and nothing without a row |
| BalanceHistory.OneMoreRow | apps/api/src/balance/balance-history.service.ts:147-164 | before rounding, a row of a new exchange adds its amount to its bucket, a later row replaces it, others change nothing |
| BalanceHistory.PointIsBucketTotal | apps/api/src/balance/balance-history.service.ts:156-166 | every point is its bucket's value, rounded |
| BalanceHistory.TotalPermuted | apps/api/src/balance/balance-history.service.ts:159 | the order of the exchanges does not matter to a total |
| BalanceHistory.PointsShareByDays | apps/api/src/balance/balance-history.service.ts:334-364 | rows share a point by the hour, day, week or month by the number of days |
| BalanceHistory.GroupedChronological | apps/api/src/balance/balance-history.service.ts:137-154 | with ascending buckets the groups are strictly ascending from the first row's bucket to the last row's |
| BalanceHistory.Round2 | apps/api/src/balance/balance-history.service.ts:161-164 | the whole number of cents within half a cent, halves upwards |
| BalanceHistory.SortSorts | apps/api/src/balance/balance-history.service.ts:189 | the sort orders any points by time and keeps them all |
| BalanceHistory.HistoryIsChronological | apps/api/src/balance/balance-history.service.ts:156-189 | the history is chronological before the sort, which changes nothing; every exchange of a bucket counts once with its latest balance |
| BalanceHistory.SampledPositionsShape | apps/api/src/balance/balance-history.service.ts:392-401 | sampled positions: first, last, strictly increasing, bounded steps |
| BalanceHistory.SamplingBounds | apps/api/src/balance/balance-history.service.ts:369-408 | a sampled history keeps at most 58, 88, 50 or 46 points, at multiples of the interval and the last, and never skips more than 2 * interval - 1 positions |
| BalanceHistory.StepIsLeast | apps/api/src/balance/balance-history.service.ts:388-390 | the interval is the least one with which 58, 88, 50 or 46 steps reach over the history |
| BalanceHistory.SampledKeeps | apps/api/src/balance/balance-history.service.ts:369-408 | exactly when a history is sampled, and that every interval-th point and the last are kept |
| BalanceHistory.SampleHistoryPoints | apps/api/src/balance/balance-history.service.ts:369-408 | the loop computes the sampled history |
| BalanceHistory.GetAccountValueHistory | apps/api/src/balance/balance-history.service.ts:95-205 | for any rows: current value, change since the first row's bucket, sorted and sampled points; for rows in time order the points were in order from the first row's bucket to the last row's |
| BalanceHistory.ChangeLeadsBack | apps/api/src/balance/balance-history.service.ts:176-186 | the percentage leads from the oldest value to the current one up to rounding |
| BalanceHistory.ReportedChange | apps/api/src/balance/balance-history.service.ts:166-186 | the current value is the total passed in or the last point's, and the amount leads to it, up to rounding |
| FailedJobAlert.FailedJobAlertService.RecordFailure | apps/api/src/failed-jobs/failed-job-alert.service.ts:23-61 | new timestamps and alerts after one failure |
| FailedJobAlert.FailedJobAlertService.Prune | apps/api/src/failed-jobs/failed-job-alert.service.ts:29-31 | keeps exactly the entries newer than the cutoff, in order |
| FailedJobAlert.OneListChanges | apps/api/src/failed-jobs/failed-job-alert.service.ts:23-41 | a failure changes only the list of its severity, and only critical ones raise alerts |
| FailedJobAlert.StoredAreKept | apps/api/src/failed-jobs/failed-job-alert.service.ts:23-56 | for any clock: the critical list holds exactly the failures since the last alert that no later critical failure has pruned; fewer than five are stored; alerts count five |
| FailedJobAlert.RaisedIffFiveKept | apps/api/src/failed-jobs/failed-job-alert.service.ts:23-56 | for any clock: a failure alerts exactly when it completes five critical failures since the last alert, each less than five minutes older than every later one |
| FailedJobAlert.PrunedIsFullIffNoneReenters | apps/api/src/failed-jobs/failed-job-alert.service.ts:23-33 | for any clock: the pruned list equals the full history since the last alert, cut to the window, if and only if no pruned failure re-enters the window |
| FailedJobAlert.AlertsAgreeIffSpikesKept | apps/api/src/failed-jobs/failed-job-alert.service.ts:23-56 | for any clock: the alerts are at every point the spikes of the full history if and only if every spike keeps five failures never pruned |
| FailedJobAlert.AlertHasFiveInWindow | apps/api/src/failed-jobs/failed-job-alert.service.ts:23-56 | for any clock: every alert has five critical failures since the last one in its window |
| FailedJobAlert.AlertsAreSpikes | apps/api/src/failed-jobs/failed-job-alert.service.ts:23-56 | with a clock that does not go back the alerts are at every point the spikes of the full history |
| FailedJobAlert.ClockStepHidesSpike | apps/api/src/failed-jobs/failed-job-alert.service.ts:29-33 | a history in which the clock steps back, a pruned failure re-enters the window and a spike raises no alert |
| CoinListing.ActiveDelisting | apps/api/src/coin/coin-listing-event.service.ts:104-124 | the latest delisting date, unless a relisting follows it |
| CoinListing.GroupByCoin | apps/api/src/coin/coin-listing-event.service.ts:94-100 | each coin's events in order, for exactly the coins that have any |
| CoinListing.GetActiveDelistingsAsOf | apps/api/src/coin/coin-listing-event.service.ts:82-128 | the map holds exactly the coins with an active delisting, with its date |
| CoinListing.AgreesWithReplay | apps/api/src/coin/coin-listing-event.service.ts:77-128 | for any order of ties a coin is active with a date exactly when replaying its events ends delisted with that date |

## Left out

- Overlapping `createAuditLog` calls: the save-read-link sequence takes no lock, so chain results are for
  creates that do not overlap.
- Database calls that throw, other than those of `detectRegime`: a create whose second save fails would leave a
  row without chain hash, which the verifier accepts as legacy.
- Columns that enter no hash (correlation id, IP address, user agent), PostgreSQL key reordering, invalid dates.
- The registration, email and token-mail paths; `changePassword`, `forgotPassword`, `verifyEmail`, `enableOtp`
  and `disableOtp` are one request that may set the other columns of the row at will.
- `ExchangeClientPool.remove` and `closeAll`: they await `close()` before deleting, so the pool invariant is
  not claimed across them. The Map of pending promises holds the client each promise resolves to.
- Volatility.PercentileInRange: one-way, because when the current returns reach behind the last window the result
  depends on all the prices; standard method only, because the percentile always ranks against standard windows.
- Floating-point rounding, NaN and infinity other than the empty percentile
  and the `NotFinite` refresh input.
- The override switch of the composite service beyond its flag, `onModuleInit`, backfill triggering and status
  payloads.
- Overlapping per-coin composite lookups: a call is one step with two clock readings.
- `getRegimeStats`, `getRegimeHistory`, `queryAuditTrail`, audit statistics, coin event recording,
  `getHistoricalBalances` and `storeUserBalances`: filters, sums and single inserts without a property beyond
  their own text.
- ISO strings are their time values (one-to-one and order preserving for years 0 to 9999); the order of an
  object's exchange keys does not matter to a sum of reals; `toUpperCase` is a parameter.
- AccountAccess.ResendCooldown: sends by login are not rate limited in the code, so only resends keep the
  distance.
