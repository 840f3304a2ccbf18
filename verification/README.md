# Verification of the shared service library

A Dafny model of the parts of the library that other services depend on being right, and proofs
about them. `dafny verify dfyconfig.toml` checks the whole project.

## What is modelled

**The outbox** (`OutboxRetry`, `OutboxRows`, `OutboxProtocol`, `OutboxSafety`, `OutboxHistory`,
`OutboxTiming`, `OutboxBudget`, `OutboxDeadLetter`, `OutboxAttempts`, `OutboxDelivery`,
`OutboxProcessor`, `OutboxOutcome`, `OutboxRecovery`, `OutboxBacklog`). A table of rows and any
number of processors that claim, publish and retry with no lock service. `OutboxRows` holds the
queries as functions on the table. `OutboxProtocol` is the state machine: one step per await of
`runCycle` and `process`. Opening a claim transaction (select, lock, skip what others locked) and
committing it are two steps, so that claims being disjoint is proved. A store write that has been
sent lands at any later moment or never, also after its caller saw an exception or died. The gateway
takes an event at any moment after its publish call has begun, whatever becomes of the call; a call
that returns has been accepted. Clocks are arbitrary except in `OutboxTiming`. `OutboxProcessor` has
the repository and the processor as classes and proves that a whole cycle, exceptions included, is a
behaviour of the protocol in which the calls return and throw as they did, so what holds over every
run holds of it. `OutboxOutcome` says what a cycle leaves of each row, outcome by outcome.
`OutboxRecovery` proves that from the end of any run, with every processor dead, any unfinished row
can still be published. `OutboxBacklog` says how many cycles a backlog takes.

**The rate limit** (`TokenBucket`, `BucketExpiry`, `RateLimit`). The Lua script as a method over a
stored key, an exact description of every decision it makes, expiry of the key as a refinement, and
the service that turns a policy into script arguments.

**The service token** (`ServiceToken`, `TokenInvalidation`). The cache and the shared in-flight
promise as a class, the state machine of every interleaving of callers, replies, failures,
invalidations and ticks, and what an invalidation is good for.

**The error event scrubber** (`Scrub`, `ErrorEvent`). Redaction over object graphs that may be cyclic,
and a whole event through it, with the exact relation between events that give the same report.

**The encryption envelope** (`Base64`, `Base64Form`, `Utf8`, `Utf8Form`, `Envelope`). Printing and
parsing, down to base64 (section 4 of RFC 4648) and the conversion between UTF-16 and UTF-8. The two
`Form` modules say what the encodings are apart from the round trip.

**Tenant scoping** (`TenantScope`, `TenantRepository`). The where-clause rewrite and its meaning,
lifted to whole runs of calls over one table shared by all tenants.

Instants are whole milliseconds, except in `ServiceToken`, where they are reals because token
lifetimes are. Clock readings, random draws, what `publish` does, how a call to the store ends and
the order the database breaks ties in are parameters of the model.

## Where the code and what is said of it differ

- The envelope does not give back every string. A lone surrogate comes back as U+FFFD; the exact
  condition is that the string is well-formed UTF-16 (`Envelope.RoundTripIffWellFormed`).
- The second of slack on a bucket's TTL hides expiry if and only if no clock is off by more than
  500 ms (`BucketExpiry.ExpiryInvisibleIffSkewFits`). At 501 ms a caller gets back a spent token.
- A retry hint can be kept if and only if the cost fits into a full bucket
  (`TokenBucket.HintKeptIffCostFits`). With a burst below one token the hint is a promise of nothing.
- `saveOne` with an id that is another tenant's row takes the row over; that is the one call that
  touches another tenant's rows (`TenantRepository.UntouchedIffNoTakeOver`).
- After `invalidate` a caller can still be handed a token from before it, through an exchange that
  was in the slot at the time (`TokenInvalidation.OldTokenIsHandedOut`). The exact conditions are in
  `TokenInvalidation.InvalidationIff`.
- A row can be a DEAD_LETTER although the gateway accepted its event: `markPublished` shares the try
  block with `publish`, and `publish` itself may throw when only the answer was lost.
  `OutboxDelivery.DeadLetterAcceptedIff` says by which steps of a run it comes about.
- `src/observability/error/error-reporter.constant.ts:73` says that what lies past the depth bound is
  dropped. The code puts the placeholder there, and so does the model.

## Model

| member | source | states |
|---|---|---|
| OutboxRetry.Delay | src/outbox/outbox-retry.util.ts:12-17 | every scheduled delay lies in [0, ceiling), or is 0 when the ceiling is 0 |
| OutboxRetry.DelayIsFloor | src/outbox/outbox-retry.util.ts:16 | a delay is the whole part of the drawn fraction of the ceiling |
| OutboxRetry.EveryDelayIsDrawn | src/outbox/outbox-retry.util.ts:4-7 | full jitter: every whole delay below the ceiling has a draw that gives it |
| OutboxRetry.CeilingDoubles | src/outbox/outbox-retry.util.ts:13-14 | the ceiling starts at the base, doubles with each of twenty further attempts up to maxMs, and then stays |
| OutboxRetry.CeilingMonotone | src/outbox/outbox-retry.util.ts:13-14 | more attempts never shorten the interval and none passes maxMs |
| OutboxRetry.TotalCeilingBound | src/outbox/outbox-retry.util.ts:13-14 | the ceilings of attempts 1 .. n add up to at most base * (2^n - 1) and at most n * max |
| OutboxRows.SelectionExists | src/outbox/outbox-event.repository.ts:85-101 | the claim query, as specified by `Selects`, has an answer on every table whatever rows are locked |
| OutboxProtocol.NextInv | src/outbox/outbox-event.repository.ts:81-177 | every step of every interleaving keeps the invariant: row shape, leases, locks, stale snapshots, writes under way |
| OutboxProtocol.LandInv | src/outbox/outbox-event.repository.ts:165-177 | a terminal write reaching the table at any moment, its sender gone or not, keeps the invariant |
| OutboxProtocol.CommitRows | src/outbox/outbox-event.repository.ts:104-111 | a commit stamps exactly the rows its own transaction locked, due when read, and leaves all others |
| OutboxSafety.LeaseSafety | src/outbox/outbox-event.repository.ts:165-177 | over every run a row changes only by soft deletion, by a claim's commit, or by a write carrying the token of that row's latest claim |
| OutboxSafety.LandingSetsColumns | src/outbox/outbox-event.repository.ts:116-151 | what a landing write sets, column by column, and which columns it leaves |
| OutboxSafety.ClaimInOrder | src/outbox/outbox-event.repository.ts:96-98 | a claim reads its rows by next attempt, and by age where that is the same |
| OutboxSafety.SupersededWriteIsInert | src/outbox/outbox-event.repository.ts:156-158 | a write whose claim is not the row's latest changes nothing at all |
| OutboxSafety.ClaimsAreDisjoint | src/outbox/outbox-event.repository.ts:99-101 | two open claim transactions never hold a row in common |
| OutboxSafety.ClaimTakesDueRows | src/outbox/outbox-event.repository.ts:84-112 | a claim takes at most batchSize rows, each due when read, untouched until stamped, and changed in status, claim time and token only |
| OutboxSafety.LifecycleShape | src/outbox/outbox-event.repository.ts:104-151 | in every reachable state PROCESSING means leased, finished means no next attempt, and the lease is the latest claim's |
| OutboxSafety.SnapshotsAgree | src/outbox/outbox.processor.ts:122-135 | every event in hand carries a lease; while it is the row's, their attempt counts agree however stale the event is; the refusal never fires |
| OutboxSafety.FinishedForever | src/outbox/outbox-event.repository.ts:116-151 | no later claim or terminal write changes a PUBLISHED or DEAD_LETTER row |
| OutboxSafety.NoIntentLost | src/outbox/outbox-event.repository.ts:87-95 | every unfinished row has a next attempt and is due exactly from the later of it and the end of its lease |
| OutboxSafety.DueRowIsTaken | src/outbox/outbox-event.repository.ts:85-101 | a claim takes a due row that neither an open claim nor an UPDATE under way holds, unless it is full of rows with an earlier next attempt, or the same and no younger |
| OutboxSafety.CrashFreesRows | src/outbox/outbox-event.repository.ts:84-112 | after a crash the rows its open claim had locked are unchanged, unlocked and candidates for the next claim; all locks left are of open claims of others |
| OutboxHistory.AtMostOneLandingPerClaim | src/outbox/outbox-event.repository.ts:165-177 | at most one terminal write ever lands per row and claim, whichever calls threw after landing |
| OutboxHistory.AttemptsAreCounted | src/outbox/outbox.processor.ts:134-155 | attemptCount is the number of failures landed on the row; they carry 1, 2, 3, ... without gap or repeat |
| OutboxHistory.PublishedWasPublished | src/outbox/outbox.processor.ts:136-138 | behind every PUBLISHED row is a publish call that returned under the claim whose markPublished landed |
| OutboxTiming.LiveWriteLands | src/outbox/outbox-event.repository.ts:92-95 | with every claim's NOW() a reading of one clock and no claim's timeout below t, a write arriving within t of its claim time lands, unless one of that claim has already; the claim time may be read well before the commit |
| OutboxTiming.LiveClaimIsExclusive | src/outbox/outbox-event.repository.ts:92-111 | under the same conditions, nobody else commits a claim on a row within t of a claim's time before that claim's own write on it has landed |
| OutboxBudget.WholeLifeBound | src/outbox/outbox.processor.ts:141-153 | with a budget of n a row absorbs at most n failures, and all its delays sum to at most base * (2^(n-1) - 1) and (n-1) * max |
| OutboxBudget.DelaysAddUp | src/outbox/outbox-retry.util.ts:12-17 | the delays of failures numbered 1, 2, 3, ... stay below the ceilings of the attempts before the last |
| OutboxDeadLetter.FinalIffHopeless | src/outbox/outbox.processor.ts:139-155 | a failure that lands ends the row, and for good, exactly when it was permanent or spent the budget; otherwise the row waits for less than the ceiling; the reason is kept up to 500 characters |
| OutboxDeadLetter.DeadLetterMeansHopeless | src/outbox/outbox.processor.ts:139-155 | behind every DEAD_LETTER row is a landed failure, its last, that was permanent or spent the budget |
| OutboxDeadLetter.GivenUpIffSpent | src/outbox/outbox.processor.ts:135-141 | under one policy and without permanent failures a row is DEAD_LETTER exactly when it has used its whole budget |
| OutboxAttempts.OneCallPerClaim | src/outbox/outbox.processor.ts:134-138 | publish is called at most once per row and claim: the calls for a row are as many as the claims called under |
| OutboxAttempts.EveryClaimIsAccountedFor | src/outbox/outbox.processor.ts:122-167 | claims of a row = recorded failures + publication + claims under which nothing landed; the publish calls lie between what landed and the claims |
| OutboxAttempts.CallsWithinBudget | src/outbox/outbox.processor.ts:135-141 | with a budget of n a row sees at most n publish calls, not counting claims under which nothing landed |
| OutboxDelivery.AcceptedAtLeastOnce | src/outbox/outbox.processor.ts:136-138 | a PUBLISHED row was accepted by the gateway at least once, and no row is accepted under more claims than it was called under |
| OutboxDelivery.FailedAttemptAccepted | src/outbox/outbox.processor.ts:136-139 | the publish call of a failed attempt returned exactly when the store call threw; its event was accepted exactly then, or when the gateway took it on its own |
| OutboxDelivery.DeadLetterAcceptedIff | src/outbox/outbox.processor.ts:136-155 | a DEAD_LETTER row was accepted exactly when a markPublished of it threw, died with its caller, arrived superseded or is under way, or when the gateway took an event whose call threw, died with its caller or is awaited |
| OutboxDelivery.DeadLetterAfterMarkThrew | src/outbox/outbox.processor.ts:136-155 | a run in which the one attempt's call returns, markPublished throws, and the row ends as DEAD_LETTER |
| OutboxDelivery.DeadLetterAfterAnswerLost | src/outbox/outbox.processor.ts:136-155 | a run in which the gateway takes the event, publish throws, and the row ends as DEAD_LETTER |
| OutboxDelivery.LandedMarkPublishes | src/outbox/outbox-event.repository.ts:116-125 | a mark that lands leaves the row PUBLISHED for the rest of the run |
| OutboxProcessor.OutboxEventRepository.ClaimDueBatch | src/outbox/outbox-event.repository.ts:81-113 | stamps the selected rows with one token and time, in memory and in the table, and leaves the rest |
| OutboxProcessor.OutboxEventRepository.Save | src/outbox/outbox-event.repository.ts:111 | each row is written back under its own id and no other row changes |
| OutboxProcessor.OutboxEventRepository.UpdateClaimed | src/outbox/outbox-event.repository.ts:165-177 | true exactly when some row still carries this id, tenant and token; otherwise nothing changes |
| OutboxProcessor.OutboxEventRepository.MarkPublished | src/outbox/outbox-event.repository.ts:116-125 | true exactly when the write landed, which leaves the row PUBLISHED and free |
| OutboxProcessor.OutboxEventRepository.RecordFailure | src/outbox/outbox-event.repository.ts:134-151 | true exactly when the write landed, which leaves the row PENDING or DEAD_LETTER and free |
| OutboxProcessor.OutboxProcessor.RunCycle | src/outbox/outbox.processor.ts:105-120 | a cycle while one runs does nothing; otherwise it is `Cycle`, and isRunning is off again whatever threw |
| OutboxProcessor.OutboxProcessor.Drain | src/outbox/outbox.processor.ts:114 | the events in order, cut short where an exception escapes |
| OutboxProcessor.OutboxProcessor.Process | src/outbox/outbox.processor.ts:122-167 | the table and the exception of `Handled`, whose effect `OutboxOutcome.EventEnds` and whose calls `EventIsRun` state |
| OutboxProcessor.EventIsRun | src/outbox/outbox.processor.ts:122-167 | what `process` does is a sequence of protocol steps, in which publish returns, publish throws and a store call throws exactly as the outcome has it |
| OutboxProcessor.DrainIsRun | src/outbox/outbox.processor.ts:114 | so is what the loop over a batch does, up to the first exception that escapes |
| OutboxProcessor.CycleIsRun | src/outbox/outbox.processor.ts:105-120 | a whole cycle, exceptions included, is a behaviour of the protocol with exactly the claim and the calls of its outcomes, and ends idle |
| OutboxProcessor.HealthyCycle | src/outbox/outbox.processor.ts:108-116 | a cycle without failures publishes exactly the rows it claimed, attempt counts unchanged |
| OutboxOutcome.EventEnds | src/outbox/outbox.processor.ts:134-167 | an event with its lease: published if publish returned and the mark took effect; otherwise, unless recording failed first, free with one more attempt and DEAD_LETTER exactly when permanent or out of budget; only the exception of recording escapes |
| OutboxOutcome.LostLeaseEnds | src/outbox/outbox.processor.ts:134-167 | an event whose lease the row no longer carries changes nothing |
| OutboxOutcome.UnleasedIsRefused | src/outbox/outbox.processor.ts:123-132 | an event without a lease changes nothing and throws nothing |
| OutboxOutcome.CycleEnds | src/outbox/outbox.processor.ts:105-120 | for every fate of the claim and of each event: how each claimed row ends, and that the rows after the first escaping exception stay leased |
| OutboxOutcome.CycleLeavesOthers | src/outbox/outbox.processor.ts:105-120 | rows a cycle does not claim stay as they were |
| OutboxRecovery.AnyIntentCanBePublished | src/outbox/outbox-event.repository.ts:77-95 | any run, followed by the death of every processor, has a continuation that publishes any given unfinished row |
| OutboxRecovery.RoomyClaimTakesAll | src/outbox/outbox-event.repository.ts:85-101 | a claim with room for the whole table leaves no candidate behind |
| OutboxBacklog.BacklogLeft | src/outbox/outbox-event.repository.ts:85-101 | k healthy cycles with batches of b at one time leave exactly max(0, n - k * b) of n due rows |
| OutboxBacklog.BacklogPublishedIff | src/outbox/outbox.processor.ts:105-120 | n rows due at one time are all PUBLISHED after k healthy cycles with batches of b if and only if k * b >= n |
| OutboxBacklog.BacklogIsPublished | src/outbox/outbox.processor.ts:105-120 | however the clocks of the cycles run, every row due at the start is PUBLISHED once k * b covers all that is due by the end |
| OutboxBacklog.BacklogCanBePublished | src/outbox/outbox-event.repository.ts:77-101 | any run, followed by the death of every processor, has a continuation in which one processor with any fixed batch size publishes all due rows in that many cycles |
| TokenBucket.BucketKey.Evaluate | src/rate-limit/token-bucket.constant.ts:40-89 | the script: new hash, new expiry and reply as functions of the old hash |
| TokenBucket.LevelShape | src/rate-limit/token-bucket.constant.ts:53-70 | at every decision the bucket is stamped with the running maximum of the clocks and holds 0 .. capacity |
| TokenBucket.LevelIsLeastAllowance | src/rate-limit/token-bucket.constant.ts:53-70 | just before each decision the tokens equal the least, over all earlier-or-current calls, of burst + rate * elapsed - admitted since |
| TokenBucket.RefusedIffOverflow | src/rate-limit/token-bucket.constant.ts:66-70 | a call is refused exactly when admitting it would overflow some stretch of past calls |
| TokenBucket.NoStretchOverflows | src/rate-limit/token-bucket.constant.ts:53-70 | no stretch of calls is ever admitted more than burst + rate * elapsed |
| TokenBucket.SkewIsHarmless | src/rate-limit/token-bucket.constant.ts:58-64 | clocks out of order get the replies of their running maximum |
| TokenBucket.TrueTimeBound | src/rate-limit/token-bucket.constant.ts:58-64 | with clocks within s of true time, a true window of W admits at most burst + rate * (W + 2s) |
| TokenBucket.RetryHintIsTight | src/rate-limit/token-bucket.constant.ts:81-84 | after a refusal returning r, through any refused calls, a call is admitted exactly from updatedAt + r on |
| TokenBucket.HintKeptIffCostFits | src/rate-limit/token-bucket.constant.ts:81-84 | the hint of a refusal can be kept if and only if the cost is within the capacity |
| TokenBucket.RemainingIsExact | src/rate-limit/token-bucket.constant.ts:86-88 | a reported remaining of k means exactly the next k unit calls at that instant are admitted |
| TokenBucket.HintIsLeastWait | src/rate-limit/token-bucket.constant.ts:81-84 | the hint of a refusal is the least wait that refills what is missing, and zero for an admission |
| TokenBucket.TtlIsLeastRefill | src/rate-limit/token-bucket.constant.ts:75-79 | the TTL less a second is the least time in which the bucket refills |
| TokenBucket.AbsentIsFull | src/rate-limit/token-bucket.constant.ts:51-56 | an absent bucket and a full one give the same reply and the same bucket |
| BucketExpiry.RefilledByExpiry | src/rate-limit/token-bucket.constant.ts:75-79 | a bucket left alone for its refill time is as good as an absent one |
| BucketExpiry.ExpiryIsInvisible | src/rate-limit/token-bucket.constant.ts:51-79 | with clocks within half the slack, an expiring bucket gives every call the reply of one kept forever |
| BucketExpiry.SlackTooSmall | src/rate-limit/token-bucket.constant.ts:79 | a run with clocks off by 501 ms, evicted strictly after its expiry, in which expiry shows |
| BucketExpiry.ExpiryInvisibleIffSkewFits | src/rate-limit/token-bucket.constant.ts:75-79 | expiry is invisible for every policy and run if and only if the skew is at most half the slack |
| RateLimit.RateLimitService.DefineCommandOnce | src/rate-limit/rate-limit.service.ts:149-160 | the command is registered at most once in the life of the service |
| RateLimit.RateLimitService.Consume | src/rate-limit/rate-limit.service.ts:93-140 | enforced exactly when the server answered, with the script's decision and remaining; otherwise allowed, with the burst as limit and remaining and no wait; what the key holds afterwards in each case |
| RateLimit.ZeroWaitIffAllowed | src/rate-limit/rate-limit.service.ts:122-130 | the seconds hint is never negative and is zero exactly when the call was admitted |
| RateLimit.SecondsAreEnough | src/rate-limit/rate-limit.service.ts:127-129 | whoever waits the seconds of the hint is admitted if nobody came in between |
| RateLimit.SecondsAreLeast | src/rate-limit/rate-limit.service.ts:127-129 | the seconds of the hint are its milliseconds rounded up |
| RateLimit.PolicyIsKept | src/rate-limit/rate-limit.service.ts:170-172 | in any true window of W ms at most burst + perMinute * (W + 2s) / 60000 calls are admitted |
| RateLimit.RefusedIffPastPolicy | src/rate-limit/rate-limit.service.ts:170-172 | a call is refused exactly when admitting it would take some stretch past burst + perMinute * elapsed / 60000 |
| ServiceToken.NarrowToken | src/service-token/service-token.service.ts:152-169 | what passes is exactly the token the body carries, if it is non-empty and has a positive lifetime |
| ServiceToken.OutcomeIff | src/service-token/service-token.service.ts:98-142 | an exchange succeeds exactly on a 2xx that carries a usable token; no answer is unreachable, any other status a refusal |
| ServiceToken.ServiceTokenService.GetAccessToken | src/service-token/service-token.service.ts:62-74 | served from the cache, joining the exchange in the slot, or starting one; and the state it leaves |
| ServiceToken.ServiceTokenService.Settle | src/service-token/service-token.service.ts:120-142 | the reply settles the exchange and, on success only, replaces the cached token |
| ServiceToken.ServiceTokenService.Finally | src/service-token/service-token.service.ts:69-71 | the slot is emptied after the outcome, whichever it was |
| ServiceToken.ServiceTokenService.Invalidate | src/service-token/service-token.service.ts:84-86 | the cache is emptied and nothing else changes |
| ServiceToken.NextInv | src/service-token/service-token.service.ts:62-143 | every step keeps: one exchange in the slot, it is the newest, and the cache holds what some exchange was given |
| ServiceToken.SingleFlight | src/service-token/service-token.service.ts:69-73 | in every interleaving at most one exchange is outstanding, and a call made meanwhile joins it or is served from the cache |
| ServiceToken.JoinersAgree | src/service-token/service-token.service.ts:69-73 | all that joined one exchange get its one outcome |
| ServiceToken.ClearedSlotIsOwn | src/service-token/service-token.service.ts:69-71 | clearing always clears the exchange's own slot and drops none that still runs |
| ServiceToken.NoStaleOutcome | src/service-token/service-token.service.ts:69-73 | no call made after a clearing waits on, or receives, the outcome of the exchange cleared or an older one |
| ServiceToken.ReplyAndCache | src/service-token/service-token.service.ts:120-142 | a failed exchange leaves the cached token alone; a successful one replaces it, for its lifetime from then |
| ServiceToken.UnconfiguredRefuses | src/service-token/service-token.service.ts:91-96 | without a credential nothing is exchanged and every call gets the refusal |
| ServiceToken.ConfiguredExchanges | src/service-token/service-token.service.ts:91-96 | with one, no exchange ends for want of it |
| ServiceToken.ServedIffFresh | src/service-token/service-token.service.ts:63-67 | a call is served from the cache exactly while the token there has more than the skew left |
| ServiceToken.ServedIsFresh | src/service-token/service-token.service.ts:63-67 | a token served from the cache was given by an exchange and has more than the skew left |
| ServiceToken.ExchangesAreSpaced | src/service-token/service-token.service.ts:62-74 | without failures and invalidations exchanges start at least L - skew after the last completed, so at most 1 + D / (L - skew) of them in D |
| TokenInvalidation.ServedIsSinceInvalidation | src/service-token/service-token.service.ts:76-86 | a token served from the cache after an invalidation was given by an exchange that settled after it |
| TokenInvalidation.NextCallGetsOld | src/service-token/service-token.service.ts:69-86 | with a settled exchange still in the slot, the next caller gets its outcome from before |
| TokenInvalidation.OldTokenIsHandedOut | src/service-token/service-token.service.ts:69-86 | a concrete run in which a caller that asks after an invalidation gets the token from before it |
| TokenInvalidation.InvalidationIff | src/service-token/service-token.service.ts:62-86 | all later calls get what was begun after the invalidation exactly when the slot was empty, and what settled after it exactly when the slot held nothing settled |
| Scrub.SensitiveAnywhere | src/observability/error/error-reporter.constant.ts:65-66 | a key that contains a sensitive key is sensitive |
| Scrub.SensitiveIff | src/observability/error/error-reporter.constant.ts:57-66 | a key is sensitive exactly when one of the words stands somewhere in it, in any case |
| Scrub.CaseDoesNotMatter | src/observability/error/error-reporter.constant.ts:60 | keys that differ in case only are sensitive alike |
| Scrub.PatternWords | src/observability/error/error-reporter.constant.ts:65-66 | each word of the pattern is sensitive |
| Scrub.DocumentedKeys | src/observability/error/error-reporter.constant.ts:60-61 | the three keys the pattern is explained with are sensitive |
| Scrub.NestingIsBounded | src/observability/error/scrub-event.util.ts:112-128 | depths 0 to 6 are looked into and no more, so a report is at most seven levels deep |
| Scrub.ScrubRecord | src/observability/error/scrub-event.util.ts:102-110 | the dictionary filled key by key holds every key in its place, with the placeholder or the scrubbed value |
| Scrub.ReportsOnlyWhatIsSeen | src/observability/error/scrub-event.util.ts:112-128 | two values, cyclic or not, scrub alike if and only if they agree outside sensitive keys and above the depth bound |
| Scrub.ReportsOnlySeenFields | src/observability/error/scrub-event.util.ts:102-110 | the same for two records |
| Scrub.ScrubsTheUnrolling | src/observability/error/scrub-event.util.ts:112-128 | scrubbing a graph is scrubbing its unrolling, wherever past the bound that was cut off |
| Scrub.FixedIffReportable | src/observability/error/scrub-event.util.ts:102-128 | scrubbing leaves exactly those trees as they are that hold nothing to hide |
| Scrub.ReportIsFinal | src/observability/error/scrub-event.util.ts:102-128 | what comes out of any graph hides all it should, is of bounded nesting, and scrubbing again changes nothing |
| ErrorEvent.AllowedIff | src/observability/error/scrub-event.util.ts:92-94 | a header is allowed exactly when its name is one of the five, in any case |
| ErrorEvent.KeptHeaders | src/observability/error/scrub-event.util.ts:91-97 | exactly the allowlisted headers are reported, each as often as it was there |
| ErrorEvent.KeptInOrder | src/observability/error/scrub-event.util.ts:91-97 | two headers are reported in an order exactly when both are allowlisted and stood in that order |
| ErrorEvent.FilterHeaderRecord | src/observability/error/scrub-event.util.ts:84-100 | the loop reports a header if and only if it was there and is allowlisted |
| ErrorEvent.Assemble | src/observability/error/scrub-event.util.ts:30-82 | the report put together part by part is `ScrubEvent` |
| ErrorEvent.ReportHolds | src/observability/error/scrub-event.util.ts:37-52 | method and user id come through as they are, with exactly the allowed headers, and a request or a user is reported exactly when there was one |
| ErrorEvent.FramesHaveNoVars | src/observability/error/scrub-event.util.ts:54-72 | every frame is reported in its place, without its variables and with the rest of it |
| ErrorEvent.FramelessStays | src/observability/error/scrub-event.util.ts:60-69 | exceptions and values without frames are reported as they are |
| ErrorEvent.ExceptionReports | src/observability/error/scrub-event.util.ts:54-72 | exceptions report alike if and only if they differ at most in the `vars` of frames |
| ErrorEvent.BreadcrumbsReport | src/observability/error/scrub-event.util.ts:74-79 | breadcrumbs report alike if and only if their data look the same and the rest agrees |
| ErrorEvent.EventReportsOnlyWhatIsSeen | src/observability/error/scrub-event.util.ts:30-82 | two events give one report if and only if they agree on everything that may be reported |
| ErrorEvent.EventScrubsTheUnrolling | src/observability/error/scrub-event.util.ts:30-82 | scrubbing an event with cyclic data is scrubbing its unrolling, wherever past the bound that was cut off |
| ErrorEvent.EventIsFinal | src/observability/error/scrub-event.util.ts:30-82 | a report scrubbed again is the same report |
| Base64.DecodeEncode | src/encryption/encryption.service.ts:80-84 | decoding what was encoded gives the bytes back, padding and all |
| Base64.EncodeIsPlain | src/encryption/encryption.service.ts:46 | an encoding holds its letters and '=' only, so never the separator |
| Base64Form.LetterIsAlphabet | src/encryption/encryption.service.ts:80-84 | the letters are the alphabet of RFC 4648 in its order |
| Base64Form.EncodingShape | src/encryption/encryption.service.ts:80-84 | four letters for every three bytes begun, with '=' exactly in the last places that no byte reaches |
| Base64Form.GroupIsNumber | src/encryption/encryption.service.ts:80-84 | each group of letters read in base 64 is its three bytes read in base 256 |
| Base64Form.EncodingIffCanonical | src/encryption/encryption.service.ts:175-178 | a string is an encoding exactly when it is of full groups, of the alphabet and padding, with no spare bit set; and exactly then re-encoding gives it back |
| Base64Form.DecodeSkips | src/encryption/encryption.service.ts:175-176 | the decoder passes over characters outside the alphabet |
| Base64Form.DecodeUrlSafe | src/encryption/encryption.service.ts:106-112 | and reads '-' as '+' and '_' as '/' |
| Utf8Form.ScalarForm | src/encryption/encryption.service.ts:69 | the bytes of a character are the shortest form of RFC 3629 |
| Utf8Form.PairsInOrder | src/encryption/encryption.service.ts:69 | surrogate pairs in their order are the code points from U+10000 in theirs |
| Utf8Form.StepIsMaximal | src/encryption/encryption.service.ts:125-127 | the decoder takes a character's bytes exactly where they stand, and otherwise replaces the longest stretch that some character begins with |
| Utf8.FromToBytes | src/encryption/encryption.service.ts:69 | a string through UTF-8 and back is the string with lone surrogates replaced |
| Utf8.SanitizedIffWellFormed | src/encryption/encryption.service.ts:125-127 | replacing lone surrogates changes nothing if and only if there are none |
| Envelope.SplitJoin | src/encryption/encryption.service.ts:85-97 | fields without a separator come back one by one |
| Envelope.JoinSplit | src/encryption/encryption.service.ts:85-97 | the parts hold no separator, and joined they are the string |
| Envelope.EnvelopeForm | src/encryption/encryption.service.ts:40-46 | the serialized form, field by field |
| Envelope.FieldsComeBack | src/encryption/encryption.service.ts:78-97 | the six fields of every envelope are parsed back |
| Envelope.DecryptEncrypt | src/encryption/encryption.service.ts:62-137 | for every plaintext, master key and draw, decrypting the envelope gives the plaintext with lone surrogates replaced |
| Envelope.RoundTripIffWellFormed | src/encryption/encryption.service.ts:62-137 | the plaintext itself comes back if and only if it is well-formed UTF-16 |
| Envelope.LoneSurrogateIsLost | src/encryption/encryption.service.ts:62-137 | a plaintext that does not come back |
| Envelope.DecryptedIffOpened | src/encryption/encryption.service.ts:96-137 | decryption answers exactly for six fields whose data key opens under the master key and whose payload, a 16-byte tag behind it, opens under the data key; and with that text |
| Envelope.MasterKeyIffCanonical | src/encryption/encryption.service.ts:180-191 | the accepted settings are exactly the canonical encodings of 32 bytes |
| Envelope.MasterKeyIffWritten | src/encryption/encryption.service.ts:180-191 | the accepted settings are exactly 43 letters of the alphabet, the last with no spare bit set, and one '=' |
| Envelope.EncryptionService.Encrypt | src/encryption/encryption.service.ts:62-86 | the printed envelope, made with the data key as drawn, whose buffer is left zeroed |
| Envelope.EncryptionService.Decrypt | src/encryption/encryption.service.ts:96-137 | the plaintext or the error of the branch that failed; the key buffer exists exactly if the data key was unwrapped, has its length, and is left zeroed on success and failure alike |
| TenantScope.ScopedClauseMeaning | src/repository/tenant-scope.util.ts:28 | a scoped clause matches exactly the tenant's rows that match the clause without its own tenantId |
| TenantScope.ScopeMeaning | src/repository/tenant-scope.util.ts:21-29 | the same for a single clause, an array, an empty array and none |
| TenantScope.StrippedUpdate | src/repository/tenant-scope.util.ts:39-52 | an update sets every column it names but the managed ones, which keep their values |
| TenantRepository.BaseRepository.FindMany | src/repository/base.repository.ts:79-88 | the page is the window of the ranked matches, each row the tenant's and wanted, and as long as the number of such rows allows |
| TenantRepository.BaseRepository.Count | src/repository/base.repository.ts:105-110 | the number of the tenant's own rows that are wanted |
| TenantRepository.BaseRepository.UpdateBy | src/repository/base.repository.ts:147-154 | table and count after an update: only the tenant's matching rows, only unmanaged columns |
| TenantRepository.BaseRepository.UpdateOneById | src/repository/base.repository.ts:138-145 | the same by id; zero for a missing row and for another tenant's |
| TenantRepository.BaseRepository.SoftDeleteOneById | src/repository/base.repository.ts:157-163 | table and count after a soft delete |
| TenantRepository.BaseRepository.RestoreOneById | src/repository/base.repository.ts:165-171 | table and count after a restore |
| TenantRepository.BaseRepository.SaveOne | src/repository/base.repository.ts:125-127 | the saved row is the argument tenant's whatever tenantId the entity carried |
| TenantRepository.BaseRepository.SaveMany | src/repository/base.repository.ts:129-131 | the entities saved one after the other, each stamped with the argument tenant |
| TenantRepository.UpdateSets | src/repository/base.repository.ts:138-154 | each named column but the managed ones is set on exactly the tenant's wanted rows, nothing else changes but the update time, and the answer is their number |
| TenantRepository.SaveSets | src/repository/base.repository.ts:119-131 | every column and timestamp of the saved row, inserted or overlaid, and no other row changed |
| TenantRepository.DeletedRow | src/repository/base.repository.ts:156-163 | a soft delete sets deletion and update time of the row and nothing else |
| TenantRepository.RestoredRow | src/repository/base.repository.ts:165-171 | a restore clears the deletion time and sets the update time |
| TenantRepository.UntouchedIffNoTakeOver | src/repository/base.repository.ts:125-171 | a call leaves other tenants' rows alone if and only if it is not a save whose id is another tenant's row |
| TenantRepository.AnswersAreOwn | src/repository/base.repository.ts:58-171 | the answer of a call is that of the tenant's own part of the table; a find returns exactly its own wanted rows |
| TenantRepository.NotYoursIsNotFound | src/repository/base.repository.ts:133-171 | a call by id on another tenant's row is like one on a missing row: no change, and a count of zero |
| TenantRepository.SoftDeleteHides | src/repository/base.repository.ts:156-163 | a soft-deleted row answers nobody's default find and is still there for its owner's find with deleted rows |
| TenantRepository.RestoreUndoes | src/repository/base.repository.ts:156-171 | a restore brings the row back as it was |
| TenantRepository.TenantIsAlone | src/repository/base.repository.ts:58-171 | over any run without a take-over, what a tenant owns is what it would own alone with its own calls |
| TenantRepository.AnswersAlone | src/repository/base.repository.ts:58-171 | and every answer is the one it would get alone |
| TenantRepository.OwnersStay | src/repository/base.repository.ts:119-171 | over any run without a take-over no row changes owner or disappears |
| TenantRepository.SaveTakesRowOver | src/repository/base.repository.ts:125-127 | one save by another tenant is enough to take a row |

## Left out

- The outbox's `enqueue`: it lives in the services. A new row is taken to be PENDING, with no failed attempts, no token and a next attempt.
- Starting and stopping the processor's timer, `collect` and the queue depths, logging, metrics, health checks.
- OutboxRows.SelectionExists: the claim select is one atomic step; a database that re-reads rows under READ COMMITTED while it locks them is not modelled.
- OutboxSafety.LeaseSafety: assumes, as OutboxSafety.FinishedForever and all that holds over every run do, that outbox rows are written by the claim and the terminal writes only. `OutboxEventRepository` inherits `saveOne`, `saveMany`, `updateOneById` and `updateBy`, which can set any column of a row, its status, claim token and (saves) tenant included; such writes to outbox rows are not steps of the protocol. Soft deletion and restoring are.
- Hard deletion of outbox rows: nothing in the repository does it.
- `decidedAt` of a failure write and the history fields of the outbox state are not data of the program; they name what a proof speaks about.
- OutboxDelivery.AcceptedAtLeastOnce: what the gateway does with an event it has accepted before, and whether it drops the repetition, is not modelled. That a publish call which returns has been accepted is taken from the callback's contract.
- OutboxRecovery.AnyIntentCanBePublished: with OutboxBacklog.BacklogCanBePublished, says that publication stays possible; that it happens needs a fair scheduler and a gateway that recovers, and neither is modelled.
- TokenBucket.BucketKey.Evaluate: exact reals; the rounding of doubles and the string form of numbers in Redis are not modelled, and neither is a policy that changes between calls of one key.
- A policy of zero requests per minute, for which the script divides by zero.
- The naming of rate-limit keys and the policies of single routes.
- AES-GCM, SHA-256 and randomness: the cipher is any pair that opens what it sealed with a key and nonce of the right size and whose tags have 16 bytes. Secrecy and integrity are not claimed, and `secretsMatch` is left out.
- Base64.DecodeEncode: the decoder is taken to skip every character outside the alphabet, '=' included; where Buffer stops at padding in malformed input is not modelled.
- Scrub.SensitiveAnywhere: the case folding of the pattern is modelled for the letters of its words only.
- ErrorEvent.Assemble: an object's own key named `__proto__`, getters, holes in arrays, class instances such as dates beyond their own properties, and headers whose lower-case form depends on more than ASCII.
- TenantRepository.BaseRepository.SaveOne: an update that changes no column still sets the update time here, and the database's own errors are not modelled.
- TenantRepository.BaseRepository.SaveMany: a batch that names one id twice is taken as two saves in turn.
- Tenant repository: relations, `order` clauses, criteria that are null or undefined, an update that names no column, and the SQL that is generated. `findOneById`, `findOne`, `findAndCount`, `exists` and `scopedQueryBuilder` add nothing to `Find`.
- Guards, exception filters, origin checks, correlation ids, storage and module wiring.
