# Verification of the market, alert and session core

A Dafny model of five components, with proofs about every input, every run or
every reachable state.

- **Exact decimals** (`Naturals`, `ScaledReals`, `DigitStrings`, `Decimals`,
  `DecimalArithmetic`, `DecimalReading`, `DecimalDivision`, `TomanNormalizer`):
  parsing, canonical printing, signed arithmetic and a division that decides by
  gcd and by the factors 2 and 5 whether the quotient terminates. Values are
  stated as reals, read off the characters of a text by place value; the proofs
  work on integers.
- **Refresh-token rotation** (`RedisStore`, `RedisLock`, `RefreshProtocol`,
  `RefreshSafety`, `RefreshTheorems`, `RefreshRevocation`, `RefreshAlone`,
  `RefreshUseCase`): each remote call of each request is a step; locks lapse,
  replies get lost, requests crash.
- **Price alerts** (`JsText`, `AlertEvaluator`, `PriceAlerts`, `AlertMachine`,
  `AlertLifecycle`, `AlertHistory`, `AlertCooldown`, `AlertUseCases`,
  `AlertVerdicts`, `PriceSweep`, `PriceCheckScheduling`, `ScheduledChecks`,
  `CheckRuns`, `AlertFrequency`, `AlertNotices`, `AlertEdits`): reads and writes
  are separate steps, so a write may rest on a copy that is no longer current.
- **Asset catalogue** (`Slices`, `Ordering`, `KeysetWalk`, `AssetPages`,
  `AssetSync`): keyset pages over a changing table, and batched upserts.
- **USDT/Toman rate** (`Outcomes`, `UsdtRate`, `UsdtCache`): retries, failover order, cache.

Code that changes state is a class or a method with loops, proved against a
function; the theorems are about that function and about the machines whose
steps it takes.

Assumptions, all of them in the model: digests of distinct tokens are distinct
and issued tokens are fresh; lock tokens are never drawn twice; the session swap
succeeds exactly if version and hash match (the session store itself is not part
of this model); generated identifiers are not empty; Base64 and its inverse
recover every text, and `Number` reads back what `String` wrote for an integer.

## What turned out to be false, and when

- The grace window is one deep when a request reads the session, not when it is
  served: `RefreshTheorems.ServedPairIsCurrentIff` gives the condition and
  `LapsedLockServesAnOlderPair` a run. While no request outlives its lock the pair
  served is current (`OrderlyReadsAreCurrent`).
- A settled alert can be relabelled: `AlertLifecycle.CancelledCanBecomeExpired` is
  a run, `OverwrittenExactlyWhen` the condition.
- Editing target or direction is documented to prevent a false crossing. A check
  under way as the edit is written can undo that in two ways. It still fires from
  its copy at the old target: `AlertEdits.EditedAlertCanFire` is a run,
  `ResetAlertFiresIff` the condition. Or it puts back the price it fetched before
  the edit, and the next check fires from that at the new target:
  `EditCanBeUndoneByACheckUnderWay` is a run with one check at a time,
  `RearmedFromBeforeIff` the condition. With no check under way the promise
  holds in every continuation: `QuietEditIsHonoured`.
- The cooldown fails when a check outlives its 300-second lease:
  `ScheduledChecks.AnOverdueCheckBreaksTheCooldown`. While none does, it holds
  (`ScheduledCooldown`); and in any run a trigger can come too soon only from a
  copy read before the previous trigger (`AlertFrequency.ScheduledTooSoon`).
- The comment above `upsertMany` says that a run that changes nothing does not
  touch `updatedAt`, and that price and stamp cannot disagree. `lastSyncedAt` is
  among the compared columns and is written even when the price is kept, so
  neither holds once the clock moves: `AssetSync.NewStampAlwaysWrites` and
  `PriceUnderAnotherStamp`, with `OneRecordIff` as the condition.
- Some channels can be notified of a trigger that is never recorded:
  `AlertNotices.UnrecordedNoticeIff` says when.
- A snapshot marked stale need not have expired when calls overlap:
  `UsdtCache.StaleMarkOnAFreshRate` is a run, `StaleMarkIsDueIff` the condition.
- A positive quote can print as 0 for a divisor with other prime factors:
  `TomanNormalizer.PositiveQuoteCanPrintZero`, with `PriceIsPositiveIff`.
- The two decimal comparisons differ exactly on zeros of different sign:
  `AlertEvaluator.SignedZeroTellsThemApart`, with `ComparatorsAgree`.

## Model

| member | source | states |
|---|---|---|
| Decimals.AcceptsExactlyTheGrammar | src/core/decimal/decimal.util.ts:1-30 | the parser accepts a text exactly when it is an optional minus, digits, and optionally a dot followed by digits, the grammar being stated by concatenation |
| Decimals.FormatParses | src/core/decimal/decimal.util.ts:36-56 | printing reduces: the printed text is canonical and parses to the same coefficient and scale with trailing fractional zeros divided out, zero losing its sign |
| Decimals.FormatValue | src/core/decimal/decimal.util.ts:32-56 | printing a sign, coefficient and scale never changes the number they denote |
| Decimals.CanonicalPrintsItself | src/core/decimal/decimal.util.ts:16-56 | a canonical text is reproduced by printing its own parse |
| Decimals.ReducedUnique | src/core/decimal/decimal.util.ts:36-56 | a reduced sign, coefficient and scale are determined by the number |
| Decimals.EqualTextIffEqualValue | src/core/decimal/decimal.util.ts:32-56 | two results are equal as strings if and only if they are equal as numbers |
| DigitStrings.DigitOrder | src/core/decimal/decimal.util.ts:27 | digits have the order of their characters and lie between 0 and 9, which leaves each digit its own value |
| DecimalReading.DecimalsByPlaceValue | src/core/decimal/decimal.util.ts:16-30 | a decimal string denotes the sum of its digits by place value, read from its characters from left to right, negated by a minus |
| DecimalArithmetic.MultiplyExact | src/core/decimal/decimal.util.ts:76-83 | multiplication succeeds exactly on two non-negative decimals, each failure having its own error, and then its canonical result is the product of the values |
| DecimalArithmetic.SumExact | src/core/decimal/decimal.util.ts:92-108 | the sum of non-negative decimals is canonical and is the exact sum of the values |
| DecimalArithmetic.SumAccepts | src/core/decimal/decimal.util.ts:92-108 | which lists are summed, and which of the three errors every other list gives |
| DecimalArithmetic.SubtractExact | src/core/decimal/decimal.util.ts:149-163 | subtraction succeeds exactly on two decimals, and its canonical result is the signed difference of the values |
| DecimalArithmetic.CompareByValue | src/core/decimal/decimal.util.ts:122-141 | comparison is the order of the values, except that a negative zero is placed just below a positive one |
| DecimalReading.CompareByFirstDifference | src/core/decimal/decimal.util.ts:122-141 | two decimals with equally many digits before and after the dot compare as the first characters in which they differ, in the decimal comparison and in the evaluator |
| DecimalArithmetic.CompareIsTotalOrder | src/core/decimal/decimal.util.ts:122-141 | comparison is reflexive, antisymmetric and transitive, and says 0 exactly for equal values that are not zeros of different sign |
| DecimalArithmetic.SumOrderIndependent | src/core/decimal/decimal.util.ts:92-108 | reordering the operands changes neither the result nor which error is thrown |
| DecimalArithmetic.MultiplyDistributesOverSum | src/core/decimal/decimal.util.ts:76-108 | multiplying a sum equals, as a string, summing the products |
| DecimalArithmetic.SubtractUndoesSum | src/core/decimal/decimal.util.ts:92-163 | subtracting either summand from a two-term sum returns the other in canonical form |
| Naturals.GcdIsGreatest | src/core/decimal/decimal.util.ts:168-177 | the Euclidean recursion divides both operands and is a multiple of every common divisor |
| Naturals.CoprimeToTenDividesOne | src/core/decimal/decimal.util.ts:208-220 | number theory behind the test on the remainder: a number free of twos and fives that divides a power of ten is 1 |
| DecimalDivision.ComputeGcd | src/core/decimal/decimal.util.ts:168-177 | the loop computes the greatest common divisor function and ends |
| DecimalDivision.ComputeStrip | src/core/decimal/decimal.util.ts:208-218 | each counting loop leaves the part of the denominator free of the factor, together with the number of factors removed |
| DecimalDivision.DivideDecimals | src/core/decimal/decimal.util.ts:188-229 | the imperative division equals the specification function of the next rows |
| DecimalDivision.DivisionIsExactWhenFinite | src/core/decimal/decimal.util.ts:179-229 | for every dividend, nonzero divisor and digit cap: a quotient that is a finite decimal is returned exactly, whatever the cap; any other is truncated toward zero within 10^-cap, or rejected if the cap is negative |
| TomanNormalizer.QuantizeTruncates | src/features/market-overview/infrastructure/usdt-toman/usdt-toman.normalizer.ts:62-74 | quantizing keeps exactly the asked scale, truncates toward zero within 10^-digits, and never prints a negative zero |
| TomanNormalizer.QuantizeIdempotent | src/features/market-overview/infrastructure/usdt-toman/usdt-toman.normalizer.ts:62-74 | quantizing twice is quantizing once |
| TomanNormalizer.PercentageChangeIsFixedScale | src/features/market-overview/infrastructure/usdt-toman/usdt-toman.normalizer.ts:106-114 | every change is printed with four places: the truncated value, or zero for an unusable one |
| TomanNormalizer.DecimalStringIff | src/features/market-overview/infrastructure/usdt-toman/usdt-toman.normalizer.ts:28-54 | a venue's value is usable exactly if it is a finite number whose rendering is a decimal string, or a text that is one between white space, and is then taken as that string |
| TomanNormalizer.PositiveQuoteMeans | src/features/market-overview/infrastructure/usdt-toman/usdt-toman.normalizer.ts:89-94 | the accepted quotes are exactly the decimals whose value is positive |
| TomanNormalizer.ConversionThrowsIff | src/features/market-overview/infrastructure/usdt-toman/usdt-toman.normalizer.ts:89-97 | a conversion rejects exactly the quotes that are not positive decimals, and throws exactly on a positive quote with a malformed or zero divisor |
| TomanNormalizer.TomanConversionIsExact | src/features/market-overview/infrastructure/usdt-toman/usdt-toman.normalizer.ts:76-97 | for a positive quote and a divisor of the form 2^a * 5^b the price is strictly positive, and multiplying back returns the quote in canonical form |
| TomanNormalizer.ConfiguredDivisors | src/features/market-overview/infrastructure/usdt-toman/usdt-toman.normalizer.ts:22-26 | the two divisors in use denote 10 and 1 and are of that form |
| TomanNormalizer.PositiveQuoteCanPrintZero | src/features/market-overview/infrastructure/usdt-toman/usdt-toman.normalizer.ts:89-97 | the quote 0.00000001 at 3 Rial per Toman is accepted and printed as 0 |
| TomanNormalizer.PriceIsPositiveIff | src/features/market-overview/infrastructure/usdt-toman/usdt-toman.normalizer.ts:8-97 | for any positive divisor the price is positive exactly when the quotient is a finite decimal or at least 10^-8; otherwise it is printed as 0 |
| JsText.TrimRemovesTheSpace | src/features/coin-tracker/application/services/price-alert-evaluator.service.ts:57-59 | trimming removes exactly the white space around a text |
| DecimalReading.ReadableIff | src/features/coin-tracker/application/services/price-alert-evaluator.service.ts:56-63 | a price is readable exactly if, trimmed, it is an optional sign, digits, optionally a dot and any digits, and optionally an exponent in either case |
| DecimalReading.PricesByPlaceValue | src/features/coin-tracker/application/services/price-alert-evaluator.service.ts:56-80 | a readable price is the sum of its digits by place value, every place moved by the exponent as written, with white space around it making no difference |
| AlertEvaluator.ParsingIsExact | src/features/coin-tracker/application/services/price-alert-evaluator.service.ts:56-80 | folding an exponent into coefficient and scale keeps the number that was written |
| AlertEvaluator.CompareTextsByValue | src/features/coin-tracker/application/services/price-alert-evaluator.service.ts:42-54 | the evaluator compares exactly by value, and fails exactly when one text is unreadable |
| AlertEvaluator.ComparatorsAgree | src/features/coin-tracker/application/services/price-alert-evaluator.service.ts:42-80 | on plain decimals it agrees with the decimal comparison if and only if the pair is not two zeros of different sign |
| AlertEvaluator.SignedZeroTellsThemApart | src/core/decimal/decimal.util.ts:126-128 | -0 and 0 are equal to the evaluator and ordered by the decimal comparison |
| AlertEvaluator.CrossingIsWitnessed | src/features/coin-tracker/application/services/price-alert-evaluator.service.ts:12-28 | a crossing is reported exactly when a previous price lies strictly on one side of the target and the current one has reached the other |
| AlertEvaluator.AtMostHalfCross | src/features/coin-tracker/application/services/price-alert-evaluator.service.ts:12-28 | with target and direction fixed, n recorded prices allow at most floor(n/2) crossings |
| RedisStore.RedisService.Get | src/infrastructure/databases/redis/redis.service.ts:70-72 | a key is visible strictly before its expiry |
| RedisStore.RedisService.StoreWithExpiry | src/infrastructure/databases/redis/redis.service.ts:43-49 | the key is overwritten with a new value and expiry |
| RedisStore.RedisService.StoreIfNotExists | src/infrastructure/databases/redis/redis.service.ts:35-41 | the key is written exactly when no unexpired value is there |
| RedisStore.RedisService.DeleteIfEqual | src/infrastructure/databases/redis/redis.service.ts:55-64 | the key is removed exactly when its unexpired value is the given one |
| RedisLock.RedisLockService.Acquire | src/infrastructure/databases/redis/redis-lock.service.ts:14-28 | the lock is taken exactly when free, storing the caller's token with the time to live |
| RedisLock.RedisLockService.Release | src/infrastructure/databases/redis/redis-lock.service.ts:30-41 | only the entry holding the caller's token is removed |
| RedisLock.AtMostOneHolder | src/infrastructure/databases/redis/redis-lock.service.ts:14-41 | over every run of acquire, expiry and release with unique tokens, at most one unexpired token holds a key |
| RedisLock.ReleaseOnlyFreesOwnLock | src/infrastructure/databases/redis/redis-lock.service.ts:30-41 | a release, however late, leaves every other live holder in place and frees the key of its own live lease |
| RedisLock.AcquireSucceedsIffFree | src/infrastructure/databases/redis/redis-lock.service.ts:14-28 | an acquisition succeeds exactly when no unexpired entry is stored under the key |
| RefreshUseCase.SessionStore.Rotate | src/features/auth/application/use-cases/refresh.use-case.ts:118-127 | the swap succeeds exactly if version and hash both match, and then installs the new hash and adds one to the version |
| RefreshUseCase.RefreshReplayService.RememberPair | src/features/auth/application/services/refresh-replay.service.ts:82-95 | the record is stored under the consumed hash for ten seconds |
| RefreshUseCase.RefreshReplayService.Find | src/features/auth/application/services/refresh-replay.service.ts:102-131 | a pair is returned exactly for an unexpired record whose version is one behind the current one |
| RefreshUseCase.Refresh.Guarded | src/features/auth/application/use-cases/refresh.use-case.ts:61-166 | the body between acquire and release takes the protocol's own steps, one to five of them, to its outcome |
| RefreshAlone.UndisturbedCall | src/features/auth/application/use-cases/refresh.use-case.ts:48-174 | by what an undisturbed call finds: a held lock refuses it and changes nothing; an inactive session is reported expired; the current token is rotated, the new hash and the next version installed and the record kept ten seconds; a token with a live record one version behind gets the recorded pair; any other is reported as reuse and leaves the session inactive; the lock is given back |
| RefreshUseCase.Refresh.Execute | src/features/auth/application/use-cases/refresh.use-case.ts:48-174 | the imperative use case, undisturbed, ends in the state and outcome of seven protocol steps, and so as the row above says |
| RefreshAlone.AlwaysEnds | src/features/auth/application/use-cases/refresh.use-case.ts:48-174 | an undisturbed request is finished after seven steps, whatever the state it meets |
| RefreshAlone.AloneIsARun | src/features/auth/application/use-cases/refresh.use-case.ts:48-174 | the undisturbed request is one of the runs of the concurrent machine, so every theorem below applies to it |
| RefreshSafety.RunInv | src/features/auth/application/use-cases/refresh.use-case.ts:48-174 | the invariant tying session, history, replay records, requests and leases holds in every run |
| RefreshTheorems.VersionMovesByOne | src/features/auth/application/use-cases/refresh.use-case.ts:118-149 | the version moves only at a committed swap, by exactly one, with the request's version still current |
| RefreshTheorems.SingleLineage | src/features/auth/application/use-cases/refresh.use-case.ts:48-174 | in every interleaving, lapsed locks and lost replies included, the version counts the committed rotations, no token is consumed by two of them, and each consumes what the one before installed |
| RefreshTheorems.RotatedMeansCommitted | src/features/auth/application/use-cases/refresh.use-case.ts:151-166 | a caller told its tokens rotated holds the pair of a committed rotation that consumed what it presented |
| RefreshTheorems.GraceIsFaithfulAndOneDeep | src/features/auth/application/services/refresh-replay.service.ts:82-131 | a pair served from a replay record is the pair of the rotation that consumed the presented token, that rotation produced the version the request read, and no other consumed that token |
| RefreshTheorems.ServedPairIsCurrentIff | src/features/auth/application/use-cases/refresh.use-case.ts:82-99 | at the moment of serving, the pair is still current if and only if the session has not moved since the request read it |
| RefreshTheorems.LapsedLockServesAnOlderPair | src/features/auth/application/use-cases/refresh.use-case.ts:82-99 | a concrete run with a lapsed lock in which the pair served is one rotation behind the session |
| RefreshTheorems.RevocationNeedsMismatch | src/features/auth/application/use-cases/refresh.use-case.ts:75-149 | whoever revoked had presented a token that did not match the session it read, and no request that lost the swap ever revoked |
| RefreshRevocation.ReuseEndsTheSession | src/features/auth/application/use-cases/refresh.use-case.ts:101-103 | in every run the session is inactive exactly if some request has revoked it, at the latest when one is told of reuse, and it is inactive in every continuation |
| RefreshRevocation.InactiveSessionGivesNothing | src/features/auth/application/use-cases/refresh.use-case.ts:62-66 | in every run, a request that has not read the session by the time it is inactive never rotates it, is never served a pair, and can only be turned away |
| RefreshTheorems.SwapWinsIff | src/features/auth/application/use-cases/refresh.use-case.ts:118-149 | in every run a request holding its new pair commits, installing exactly its hash and the next version, if and only if the session has not moved since its read; otherwise it is told of the conflict and the session is left alone |
| RefreshTheorems.ConflictMeansMatched | src/features/auth/application/use-cases/refresh.use-case.ts:129-149 | only a request whose token matched at its read is told that it lost the swap |
| RefreshTheorems.MutualExclusion | src/features/auth/application/use-cases/refresh.use-case.ts:52-59 | two requests inside the critical section on unexpired leases are the same request |
| RefreshTheorems.PreviousTokenIsServed | src/features/auth/application/use-cases/refresh.use-case.ts:75-99 | while no critical section has outlived its lock and records are written, the immediately previous token presented within the record's lifetime is served the winner's pair |
| RefreshTheorems.OrderlyReadsAreCurrent | src/features/auth/application/use-cases/refresh.use-case.ts:61-127 | while no critical section outlives its lock, a request between its read and its next effect holds the current version: its swap cannot be lost, and a pair served to it is the session's current one |
| RefreshTheorems.RevokesOnlyOutsideTheWindow | src/features/auth/application/use-cases/refresh.use-case.ts:75-103 | in such runs a request about to revoke never presents the immediately previous token inside the ten-second window |
| AlertUseCases.PriceAlertRepository.Create | src/features/coin-tracker/infrastructure/repositories/price-alert.repository.ts:21-34 | the new row carries every column of the order, is ACTIVE with a cooldown of 60 minutes, never checked and never triggered, and no other row changes |
| AlertUseCases.PriceAlertRepository.ExpireActiveAlerts | src/features/coin-tracker/infrastructure/repositories/price-alert.repository.ts:84-102 | exactly the rows that are ACTIVE with an expiry strictly before the given time become EXPIRED, no other column or row changes, and exactly those identifiers are returned |
| AlertUseCases.PriceAlertRepository.UpdateOwned | src/features/coin-tracker/infrastructure/repositories/price-alert.repository.ts:140-146 | exactly the columns given are set in the owner's row, whatever its status, and nothing else changes |
| AlertUseCases.PriceAlertRepository.MarkTriggered | src/features/coin-tracker/infrastructure/repositories/price-alert.repository.ts:148-172 | price, date, status and the count plus one are written exactly to an ACTIVE row, and the result says whether it was |
| AlertUseCases.PriceAlertRepository.UpdateLastCheckedPrice | src/features/coin-tracker/infrastructure/repositories/price-alert.repository.ts:174-184 | the price is written exactly to an ACTIVE row, and the result says whether it was |
| AlertUseCases.CreatePriceAlertUseCase.Execute | src/features/coin-tracker/application/use-cases/create-price-alert.use-case.ts:37-94 | the imperative creation equals the specification of the row on creating below |
| AlertUseCases.UpdatePriceAlertUseCase.ToUpdateData | src/features/coin-tracker/application/use-cases/update-price-alert.use-case.ts:118-153 | field by field, the patch of the request; a new target or direction forgets the last checked price, a past expiry is refused |
| AlertUseCases.UpdatePriceAlertUseCase.Execute | src/features/coin-tracker/application/use-cases/update-price-alert.use-case.ts:35-116 | the imperative edit equals the read-decide-write specification of the rows below |
| AlertUseCases.CancelPriceAlertUseCase.Execute | src/features/coin-tracker/application/use-cases/cancel-price-alert.use-case.ts:30-50 | cancelling writes CANCELLED unless the alert is missing, CANCELLED or EXPIRED |
| AlertUseCases.CreatesExactlyTheOrder | src/features/coin-tracker/application/use-cases/create-price-alert.use-case.ts:37-64 | an order is accepted exactly if its coin is active and its expiry null or still to come, the expiry being looked at first; accepting it adds one row that carries the order column by column, refusing it changes nothing |
| AlertUseCases.UpdateSucceedsIff | src/features/coin-tracker/application/use-cases/update-price-alert.use-case.ts:35-153 | an edit succeeds exactly on the owner's ACTIVE alert, not past its expiry, asking something and no expiry that is not in the future; every other case has its own refusal, and changes nothing but to mark a lapsed row EXPIRED |
| AlertUseCases.UpdateWritesTheRequest | src/features/coin-tracker/application/use-cases/update-price-alert.use-case.ts:118-153 | a successful edit sets exactly the columns asked for, forgets the last checked price on a new target or direction, and keeps the rest |
| AlertUseCases.CancelSucceedsIff | src/features/coin-tracker/application/use-cases/cancel-price-alert.use-case.ts:30-50 | a cancellation succeeds exactly on the owner's ACTIVE or TRIGGERED alert and changes its status only; a missing, cancelled or expired one has its own refusal and is left alone |
| AlertUseCases.CreateIsARun | src/features/coin-tracker/application/use-cases/create-price-alert.use-case.ts:37-64 | the machine creates alerts as the use case does |
| AlertUseCases.UpdateIsARun | src/features/coin-tracker/application/use-cases/update-price-alert.use-case.ts:35-116 | an edit that nothing interrupts is a read step and a write step of the machine |
| AlertUseCases.CancelIsARun | src/features/coin-tracker/application/use-cases/cancel-price-alert.use-case.ts:30-50 | a cancellation that nothing interrupts is a read step and a write step of the machine |
| AlertMachine.StepRow | src/features/coin-tracker/infrastructure/repositories/price-alert.repository.ts:84-184 | one step never removes a row and changes it by exactly the one write the event makes; the recorded triggers grow by exactly the trigger it records |
| AlertLifecycle.StatusMoves | src/features/coin-tracker/infrastructure/repositories/price-alert.repository.ts:84-184 | out of ACTIVE nothing leads back, TRIGGERED is entered from ACTIVE only and by a recorded trigger, a settled alert is only ever relabelled EXPIRED or CANCELLED |
| AlertLifecycle.NeverReactivated | src/features/coin-tracker/infrastructure/repositories/price-alert.repository.ts:140-184 | over every interleaving an alert that has left ACTIVE never returns to it and is never triggered again |
| AlertLifecycle.TriggeredAtMostOnce | src/features/coin-tracker/infrastructure/repositories/price-alert.repository.ts:148-172 | over every interleaving an alert enters TRIGGERED at most once, and not at all if it ends ACTIVE |
| AlertLifecycle.OnceTriggersAtMostOnce | src/features/coin-tracker/application/services/price-check.service.ts:240-248 | an alert whose mode is ONCE throughout has a trigger count of at most 1, even with overlapping checks |
| AlertLifecycle.OverwrittenExactlyWhen | src/features/coin-tracker/infrastructure/repositories/price-alert.repository.ts:140-146 | in every run the status of a settled alert is overwritten exactly by an edit whose ACTIVE copy has lapsed, a cancellation from an ACTIVE or TRIGGERED copy, or a check whose copy lapsed before its clock reading, each over a different status |
| AlertLifecycle.CancelledCanBecomeExpired | src/features/coin-tracker/application/use-cases/update-price-alert.use-case.ts:55-64 | a concrete run in which the unguarded write relabels a CANCELLED alert EXPIRED |
| AlertHistory.RunInv | src/features/coin-tracker/application/services/price-check.service.ts:141-254 | the invariant on counts, dates, observed prices and queued copies holds in every run |
| AlertHistory.CountIsTheHistory | src/features/coin-tracker/infrastructure/repositories/price-alert.repository.ts:156-169 | the trigger count and last trigger date always agree with the triggers recorded |
| AlertHistory.RecordedPriceWasObserved | src/features/coin-tracker/infrastructure/repositories/price-alert.repository.ts:174-184 | lastCheckedPrice is null or a price some check fetched for the alert's coin |
| AlertHistory.FiringsAreWitnessed | src/features/coin-tracker/application/services/price-check.service.ts:186-248 | every recorded trigger has two observed prices of the alert's coin on opposite sides of the target used, from a copy past its cooldown |
| AlertCooldown.FiringRespectsCooldown | src/features/coin-tracker/application/services/price-alert-evaluator.service.ts:30-40 | from a copy that still shows the last trigger, a trigger comes a full cooldown after it |
| AlertCooldown.CooldownBound | src/features/coin-tracker/application/services/price-check.service.ts:186-248 | when checks are serialised, triggers j and k of an alert are at least (k - j) cooldowns apart, whatever edits are interleaved and whatever the clock readings |
| PriceSweep.BatchingIsInvisible | src/features/coin-tracker/application/services/price-check.service.ts:300-313 | however the coins are split into requests, the merged prices are those of the market for the coins asked |
| PriceSweep.FetchFailsIff | src/features/coin-tracker/application/services/price-check.service.ts:300-313 | whatever the client answers, fetching fails exactly if one of its requests, each for the next coins in order, does |
| PriceSweep.PriceCheckService.FetchPricesInBatches | src/features/coin-tracker/application/services/price-check.service.ts:300-313 | the loop over batches of 50 computes that merge, and fails exactly if a request does |
| AlertVerdicts.VerdictIff | src/features/coin-tracker/application/services/price-check.service.ts:147-238 | each of the nine verdicts on an alert is given exactly under its written-out conditions in their order of precedence; among them, an alert whose prices straddle the target is held back exactly while fewer milliseconds than its cooldown have passed since its last trigger |
| AlertVerdicts.FiresIff | src/features/coin-tracker/application/services/price-check.service.ts:147-238 | a check fires exactly on an alert not past its expiry, of an active coin, whose last and current prices straddle the target, never triggered or at least the cooldown ago, with an address where one is needed and no selected channel failing |
| AlertVerdicts.VisitedRow | src/features/coin-tracker/application/services/price-check.service.ts:147-254 | column by column, what a visit leaves in the row: the price whenever the alert was looked at to the end, count, date and status when it fires, all only while the row is ACTIVE; EXPIRED for a lapsed copy; every other column untouched |
| PriceSweep.PriceCheckService.ProcessAlert | src/features/coin-tracker/application/services/price-check.service.ts:141-268 | one alert: the write its copy calls for, the counters it moves, and whether it throws |
| PriceSweep.PriceCheckService.ExecuteCheck | src/features/coin-tracker/application/services/price-check.service.ts:75-139 | with other writers changing, inserting and removing rows before every touch, the loop ends over any finite set of identifiers; its pages follow one another, every copy handed out is dealt with once, in order and exactly as it says, and the counters and the final table are those of that trace |
| PriceSweep.HandedAscending | src/features/coin-tracker/application/services/price-check.service.ts:96-129 | the alerts handed out over all pages have strictly ascending identifiers, so none is handed out twice |
| PriceSweep.SweepIsComplete | src/features/coin-tracker/application/services/price-check.service.ts:96-129 | however rows change, appear and disappear, every alert is listed on exactly one page if it was ACTIVE when the page covering it was read, and on none otherwise |
| PriceSweep.CountersAreExact | src/features/coin-tracker/application/services/price-check.service.ts:141-268 | each of the four counters gains exactly what the verdicts on the visited alerts add to it, the triggered one the triggers that took effect, and no alert is counted under two headings |
| PriceCheckScheduling.PriceCheckScheduler.HandleCheck | src/features/coin-tracker/infrastructure/schedulers/price-check.scheduler.ts:32-77 | exactly if the lock was free the whole check is done on the alert table, otherwise nothing is touched; the release removes only the job's own unexpired entry |
| CheckRuns.UndisturbedCheckIsARun | src/features/coin-tracker/application/services/price-check.service.ts:75-139 | a check that nothing disturbs leaves the rows of the machine run that expires, starts the check, takes its page reads and visits in turn, and ends it |
| CheckRuns.UndisturbedJobIsARun | src/features/coin-tracker/infrastructure/schedulers/price-check.scheduler.ts:32-77 | an undisturbed scheduled job that finds the lock free leaves lock store and alerts as the run of lock and alerts does that begins a check, takes its steps and ends it |
| ScheduledChecks.TheLockSerialisesChecks | src/features/coin-tracker/infrastructure/schedulers/price-check.scheduler.ts:32-77 | in any run of scheduled checks among users, other locks and the clock, checks never overlap while none outlives its 300-second lease |
| ScheduledChecks.AnOverdueCheckBreaksTheCooldown | src/features/coin-tracker/infrastructure/schedulers/price-check.scheduler.ts:13-57 | a concrete run under the lock, on one clock: a check still at work when its lease ends lets the next one in, and both trigger one alert 300 seconds apart against a cooldown of an hour |
| ScheduledChecks.ScheduledCooldown | src/features/coin-tracker/infrastructure/schedulers/price-check.scheduler.ts:13-77 | in such runs triggers m and n of an alert are at least (n - m) cooldowns apart |
| AlertFrequency.TooSoonMeansReadBefore | src/features/coin-tracker/application/services/price-check.service.ts:186-248 | in every run, overlapping checks included, a trigger inside the cooldown started by the last one is decided from a copy read before that last trigger |
| AlertFrequency.ScheduledTooSoon | src/features/coin-tracker/infrastructure/schedulers/price-check.scheduler.ts:32-77 | the same over every run of scheduled checks, on time or not |
| AlertFrequency.TriggersAreAtMostHalf | src/features/coin-tracker/application/services/price-check.service.ts:186-248 | in a serialised run in which an alert is not edited, twice its trigger count is at most the number of prices recorded for it |
| AlertNotices.RecordedIff | src/features/coin-tracker/application/services/price-check.service.ts:231-254 | a trigger is recorded exactly when every selected channel has been notified and the row is still ACTIVE and the store takes the write |
| AlertNotices.UnrecordedNoticeIff | src/features/coin-tracker/application/services/price-check.service.ts:231-316 | a notification goes out without a recorded trigger exactly when another selected channel fails, the row has left ACTIVE, or the store fails |
| AlertNotices.NoticesAreTriggersAndLost | src/features/coin-tracker/application/services/price-check.service.ts:231-254 | in every run the full notifications of an alert number its recorded triggers plus those lost to a row that left ACTIVE or a failing store |
| AlertEdits.ResetAlertFiresIff | src/features/coin-tracker/application/services/price-check.service.ts:141-254 | first way an edit is undone, the price still null: in every run such an ACTIVE alert is triggered exactly when the check at work read it before the edit that reset it and that older copy meets the conditions for firing |
| AlertEdits.EditedAlertCanFire | src/features/coin-tracker/presentation/dto/request/update-price-alert.request.dto.ts:29 | a concrete run in which an alert whose target was raised and whose last checked price was reset is triggered at the old target |
| AlertEdits.RearmedFromBeforeIff | src/features/coin-tracker/application/services/price-check.service.ts:196-254 | second way, the price put back: a check gives a reset ACTIVE alert a price exactly if it looks at its copy to the end and the store takes the write; that price was fetched before the edit if the check was under way then, and since if it started later |
| AlertEdits.EditCanBeUndoneByACheckUnderWay | src/features/coin-tracker/presentation/dto/request/update-price-alert.request.dto.ts:29 | a concrete run with one check at a time in which the check under way puts the old price back after the edit, and the next check triggers at the new target from it |
| AlertEdits.QuietEditIsHonoured | src/features/coin-tracker/presentation/dto/request/update-price-alert.request.dto.ts:29 | when no check is under way as an edit of target or direction is written, in every continuation each later trigger rests on two prices fetched by checks started since |
| AlertEdits.CancelledAlertNeverTriggers | src/features/coin-tracker/application/use-cases/cancel-price-alert.use-case.ts:30-50 | after an undisturbed successful cancellation no continuation triggers the alert again, checks under way included |
| KeysetWalk.WalkIsComplete | src/features/assets/infrastructure/repositories/asset.repository.ts:130-177 | any reader that pages by the last row seen lists each row of a changing collection exactly on the page that covers it |
| AssetPages.CursorRoundTrip | src/features/assets/application/use-cases/list-assets.use-case.ts:48-89 | a cursor made from a row is read back as that row's rank and identifier |
| AssetPages.AcceptedIff | src/features/assets/application/use-cases/list-assets.use-case.ts:57-89 | a cursor is accepted as a position exactly if it decodes to a rank, a separator and an identifier that spell it |
| AssetPages.RefusedIff | src/features/assets/application/use-cases/list-assets.use-case.ts:57-89 | a cursor is refused exactly if it decodes to nothing that spells a position |
| AssetPages.UuidIff | src/core/pagination/cursor.util.ts:1-14 | the identifiers accepted are five groups of hexadecimal digits of either case, of lengths 8, 4, 4, 4 and 12, joined by dashes |
| AssetPages.CaseDoesNotMatter | src/features/assets/infrastructure/repositories/asset.repository.ts:167-177 | cursors whose identifiers differ in letter case only mark the same position |
| AssetPages.ConditionIsTheOrder | src/features/assets/infrastructure/repositories/asset.repository.ts:167-177 | the three disjuncts are exactly "after the cursor" in the rank-ascending, nulls-last, identifier order |
| AssetPages.PageIsAWindow | src/core/pagination/paginate.util.ts:3-12 | for every limit and for none: a page is the first rows of the sorted list after the cursor, 20 if no limit is sent, and there is a next cursor exactly when rows are left over |
| AssetPages.StartsAtTheTop | src/features/assets/application/use-cases/list-assets.use-case.ts:57-58 | without a cursor, or with an empty one, the page is the window at the top |
| AssetPages.PagesConcatenateToTheSortedList | src/features/assets/infrastructure/repositories/asset.repository.ts:130-156 | following the cursors to the end gives exactly the sorted catalogue, whatever limit is sent or none |
| AssetPages.ListingOrder | src/features/assets/infrastructure/repositories/asset.repository.ts:122-156 | the listing holds every row once, by ascending rank, unranked rows last, equal ranks by the first character in which the identifiers differ |
| Ordering.FirstDifferenceOrders | src/features/assets/infrastructure/repositories/asset.repository.ts:150-153 | identifiers are ordered by the first character in which they differ, a proper prefix first |
| AssetPages.BrowsingAscends | src/features/assets/application/use-cases/list-assets.use-case.ts:30-41 | rows come out strictly ascending over all pages even while the catalogue changes |
| AssetPages.BrowsingIsComplete | src/features/assets/application/use-cases/list-assets.use-case.ts:30-41 | while the catalogue changes, a row is listed on the page that covers it exactly if it was there when that page was read, and on no other |
| AssetPages.UnchangedRowAppearsExactlyOnce | src/features/assets/application/use-cases/list-assets.use-case.ts:30-41 | a row present with an unchanged key throughout appears exactly once |
| AssetSync.SyncAssetsUseCase.CollectSyncData | src/features/assets/application/use-cases/sync-assets.use-case.ts:85-99 | the loop over the Map computes the deduplication function |
| AssetSync.SyncAssetsUseCase.Execute | src/features/assets/application/use-cases/sync-assets.use-case.ts:30-63 | nothing is written on a provider failure or an empty answer; otherwise the deduplicated records are upserted and the upsert cannot fail on duplicates |
| AssetSync.SyncDataIsDistinct | src/features/assets/application/use-cases/sync-assets.use-case.ts:85-99 | identifiers come out distinct, and the last record received for each one wins, stamped with the run's time |
| AssetSync.AssetRepository.UpsertMany | src/features/assets/infrastructure/repositories/asset.repository.ts:54-66 | the loop builds and sends one bound statement per batch of 1000, with the effect of the batch specification |
| AssetSync.AssetRepository.BuildPlaceholders | src/features/assets/infrastructure/repositories/asset.repository.ts:71-79 | placeholder c of row r has number 14 r + c + 1 |
| AssetSync.AssetRepository.Flatten | src/features/assets/infrastructure/repositories/asset.repository.ts:104-116 | parameter 14 r + c + 1 is column c of record r |
| AssetSync.AssetRepository.BuildQuery | src/features/assets/infrastructure/repositories/asset.repository.ts:54-116 | for every batch length the statement built from both loops binds each slot to the value of its own row and column |
| AssetSync.BoundQueryIsTheBatch | src/features/assets/infrastructure/repositories/asset.repository.ts:62-64 | a statement so bound inserts exactly the records of the batch |
| AssetSync.FilterOnlySparesUpdatedAt | src/features/assets/infrastructure/repositories/asset.repository.ts:91-100 | leaving the WHERE filter out would change no column but updatedAt, and that only where nothing else changes |
| AssetSync.NewStampAlwaysWrites | src/features/assets/infrastructure/repositories/asset.repository.ts:46-52 | a run with a new time rewrites updatedAt of every row it brings, and stamps a row whose price it did not report |
| AssetSync.StatementIsAFold | src/features/assets/infrastructure/repositories/asset.repository.ts:68-102 | one statement over distinct identifiers, its rows taken all at once, does what they would do one by one |
| AssetSync.EachRowOnce | src/features/assets/infrastructure/repositories/asset.repository.ts:54-66 | whatever the batch size and statement times, each identifier is upserted exactly once against the row stored at the start |
| AssetSync.BatchSizeIsInvisible | src/features/assets/infrastructure/repositories/asset.repository.ts:54-66 | at one statement time any batch size gives exactly the row-by-row fold |
| AssetSync.AnyBatchingSameData | src/features/assets/infrastructure/repositories/asset.repository.ts:54-66 | two ways of batching the same records leave the same data and creation dates |
| AssetSync.StoppingIsLanding | src/features/assets/infrastructure/repositories/asset.repository.ts:54-66 | a run that stops after any number of its statements has done exactly the whole work on the records that landed |
| AssetSync.LandedRecordIsTheLast | src/features/assets/application/use-cases/sync-assets.use-case.ts:85-99 | a record that lands is the last one received for its identifier, stamped with the run's time |
| AssetSync.PriceIsTheLatestReported | src/features/assets/infrastructure/repositories/asset.repository.ts:46-51 | over any history of runs, each stopping before, between or after its statements, the stored price is the latest reported by a record that landed, else the one known before |
| AssetSync.KnownPriceStays | src/features/assets/infrastructure/repositories/asset.repository.ts:46-51 | a known price never becomes null, whatever runs fail or succeed only partially |
| AssetSync.ColumnsAreTheLatestLanded | src/features/assets/infrastructure/repositories/asset.repository.ts:46-102 | over any such history every column holds the value of the last record that landed, the price alone passing over records that report none |
| AssetSync.OneRecordIff | src/features/assets/infrastructure/repositories/asset.repository.ts:50-51 | price and stamp stand together from one record exactly if the written record reports a price, no price was known, or it repeats the stored stamp |
| AssetSync.PriceUnderAnotherStamp | src/features/assets/infrastructure/repositories/asset.repository.ts:50-51 | a concrete write that leaves a price fetched at 10 under the stamp 20 |
| UsdtRate.FetchWithRetries | src/features/market-overview/infrastructure/usdt-toman/exchange-usdt-toman.provider.ts:50-84 | the call settles at the first reply that is not a transient failure or at attempt retries + 1, with that reply's rate or error; settling at attempt k it has slept backoff * (2^(k-1) - 1) in all |
| UsdtRate.CallEndsAtTheFirstFinal | src/features/market-overview/infrastructure/usdt-toman/exchange-usdt-toman.provider.ts:50-140 | a call ends at the first reply that is a rate, an application error or a status other than 0, 429 and server errors, or at its last attempt, and gives a rate exactly if that reply is one |
| UsdtRate.FailureByStatus | src/features/market-overview/infrastructure/usdt-toman/exchange-usdt-toman.provider.ts:88-138 | a failed call passes on an application error, and otherwise is rate limited exactly on 429, timed out exactly on a timeout code without a status, a bad request exactly on another status below 500, and unavailable in every other case |
| UsdtRate.ExhaustedFailure | src/features/market-overview/infrastructure/usdt-toman/exchange-usdt-toman.provider.ts:50-84 | a call that used up its attempts ends rate limited, timed out or unavailable |
| UsdtRate.TotalSleep | src/features/market-overview/infrastructure/usdt-toman/exchange-usdt-toman.provider.ts:66-79 | sleeping between k attempts takes backoff * (2^(k-1) - 1) in all |
| UsdtRate.OrderIsAPermutation | src/features/market-overview/infrastructure/usdt-toman/failover-usdt-toman.provider.ts:148-170 | the order rearranges the declared registered venues, the preferred one first if it is among them, the rest in declared order |
| UsdtRate.ConfiguredOrder | src/features/market-overview/infrastructure/usdt-toman/failover-usdt-toman.provider.ts:148-170 | with the two venues declared, wallex comes first if it is preferred and nobitex otherwise |
| UsdtRate.FindsTheFirst | src/features/market-overview/infrastructure/usdt-toman/failover-usdt-toman.provider.ts:149-151 | of several venues registered under a name the first is taken |
| UsdtRate.CategoryByStatus | src/features/market-overview/infrastructure/usdt-toman/failover-usdt-toman.provider.ts:28-36 | the category logged for a venue, by the status and code of the reply that ended its call |
| UsdtRate.FetchFromChain | src/features/market-overview/infrastructure/usdt-toman/failover-usdt-toman.provider.ts:88-136 | each venue is asked through its retries until one gives a rate; the chain fails exactly if every venue does, describes each failure met, and its requests and sleep are the sums over the venues asked, within retries + 1 each |
| UsdtCache.UsdtTomanCacheService.Get | src/features/market-overview/infrastructure/cache/usdt-toman-cache.service.ts:42-45 | an entry is fresh strictly before its expiry |
| UsdtCache.UsdtTomanCacheService.Store | src/features/market-overview/infrastructure/cache/usdt-toman-cache.service.ts:52-61 | the entry is replaced and expires one time to live after it is stored |
| UsdtCache.GetUsdtTomanUseCase.Execute | src/features/market-overview/application/use-cases/get-usdt-toman.use-case.ts:34-57 | a fresh entry is served untouched; otherwise a fetched rate replaces it, a failed fetch serves it as stale, and only with nothing cached is the failure returned |
| UsdtCache.ServedIsTheLastSuccess | src/features/market-overview/application/use-cases/get-usdt-toman.use-case.ts:22-57 | however calls overlap, every answer is the last success by then, marked stale exactly when the call's own fetch failed |
| UsdtCache.AloneStaleMeansLapsed | src/features/market-overview/application/use-cases/get-usdt-toman.use-case.ts:34-57 | for a call nothing interrupts, the stale mark means exactly that the fetch failed and the time to live had lapsed |
| UsdtCache.StaleMarkIsDueIff | src/features/market-overview/application/use-cases/get-usdt-toman.use-case.ts:34-57 | however calls overlap, the entry a failed call shows as stale had expired when that call looked if and only if no other call has stored a rate since |
| UsdtCache.StaleMarkOnAFreshRate | src/features/market-overview/application/use-cases/get-usdt-toman.use-case.ts:40-53 | a concrete overlap in which a rate that has not expired is marked stale |

## Left out

- AlertEvaluator.ParsingIsExact: exponents are exact integers; the rounding of `parseInt` and the BigInt size limit on enormous exponents are not modelled.
- TomanNormalizer.PercentageChangeIsFixedScale: a JSON number enters as the text JavaScript prints for it; float rendering itself is not part of this model.
- AlertEvaluator.CompareTextsByValue: the same, for texts whose exponents make the source throw on size.
- PriceSweep.PriceCheckService.ExecuteCheck: all identifiers that exist during one check lie in some finite set; with endless insertions ahead of the cursor the loop need not end.
- AssetSync.StatementIsAFold: that Postgres refuses a statement touching one row twice is taken as given; deduplication keeps it from arising.
- AssetPages.CursorRoundTrip: Base64 and `Number` are an inverse pair taken as given; what `Number` makes of other texts is left open.
- UsdtRate.FetchWithRetries: the venues' wire formats and HTTP client are not modelled; each request ends in an arbitrary reply.
- RefreshUseCase.Refresh.Execute: token verification before the lock, and expiry dates in the issued tokens, are not modelled.
- AlertUseCases.UpdatePriceAlertUseCase.Execute: a row deleted between write and re-read cannot occur in an undisturbed call.
- RedisLock.AtMostOneHolder: one Redis clock; failover of the Redis server itself is not modelled.
- One session stands for all: lock and replay keys are namespaced by session, so sessions share no state.
- Decimal columns: Postgres may rewrite a stored price to its column scale; prices are kept as the text written.
- Search filters of the asset list: how the cursor's disjunction is grouped with them depends on the query builder.
- Portfolio calculation, session repository, rate limits and CSRF: their source is not part of this model.
- Cryptography: JWT signing, SHA-256, password hashing and HMAC are abstract functions.
- Controllers, DTO validation, wiring, logging, activity records, notifications' content, realtime events.
- Permission checks, invitations and metadata sanitizing: single-branch rules that would only add easy members.
- List queries of alerts by user, coin lists of the scheduler, `describe` durations: plain selections.
