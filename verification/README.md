# Verification models for NoClickBait News

This project models the stateful parts of NoClickBait News, a Go backend with a Flutter and a
web client, and proves properties of them in Dafny. `dafny verify dfyconfig.toml` checks all of it.

| File | What it models |
|---|---|
| RewriteAdmission.dfy, RewriteWorkers.dfy | admission of rewrite jobs: a rolling window with hand-backs, a shared 429 circuit breaker, and the worker loop around them |
| RetryAfter.dfy, RewriteCalls.dfy | reading a Retry-After header (section 10.2.3 of RFC 9110), and one provider call with its 429 path (section 4 of RFC 6585) |
| RewriteQueue.dfy, RewriteStore.dfy | the durable job table, and the publication of rewrites |
| UsageReservation.dfy, ReadTransactions.dfy | reading quotas: two transactions statement by statement |
| ReadEntitlements.dfy, ReadQuotas.dfy | whole calls and cleanup statements over long runs |
| ArticleAccessCache.dfy, NewsProvider.dfy | the mobile client's two-level cache and its asynchronous feed pager |
| FeedInterleaving.dfy, NewsCrawler.dfy | the crawler's fair interleaving, deduplication and insertion slots |
| RateLimiter.dfy | the fixed-window request limiter |
| MarkdownLines.dfy, MarkdownText.dfy, MarkdownBlocks.dfy | the block parser of the web client |
| RewrittenMarkdown.dfy | stripped text meets the block parser |
| TextCleaner.dfy, MarkupStripper.dfy | the text normaliser and the markup stripper |
| Comparisons.dfy | choosing a pair of rewrites and voting once |
| Common.dfy, Text.dfy | shared datatypes and string functions |

Pure step functions carry the theorems about runs. Where the program updates state in place a class
with the same fields runs its loops, and every method is proved equal to the step function. Time
is an integer: nanoseconds in the Go parts, microseconds in the Dart and SQL parts. Clock readings,
random draws, hashes, provider answers and the choice among equally eligible rows are arguments.

## What the proofs found

- The doubling loop of the backoff jumps to the cap one doubling early when the doubled base is
  one below an odd cap (`BackoffExactIff`); the excess is one nanosecond. A loaded configuration
  never meets this: the settings are whole seconds, so the cap is even (llm_rewriter.go:148-159).
- README.md:121 of the repository says that workers pause until the provider's `Retry-After`;
  README.md:96 and the code cap that pause. It is honoured in full exactly when it is within the cap
  or the breaker was already open that long (`HintHonouredIff`, `LongHintIsCut`).
- A Retry-After of more than 9223372036 seconds wraps in 64-bit nanoseconds and is read as another
  delay, possibly negative (`SecondsReadExactlyIff`); what that does to the breaker is stated
  exactly by `SecondsHonouredIff`.
- The monthly reading limit can be passed at the turn of a month. A transaction's dates are fixed when
  it begins; if it waits for the user's lock while the month turns and the cleanup deletes the old
  month's counters, it counts from one again (`ReadTransactions.MonthTurnRace`). The limit holds
  whatever is read exactly when no such deletion falls between two of the user's readings in the
  month (`MonthlyLimitIff`); the daily choice has the same condition, six days later
  (`DailyChoiceIff`).
- A reader's visit queues an article again also when the query that counts its models fails
  (articles.go:586-592).
- The block parser does not end on a line outside code fences whose heading text holds a carriage
  return or a Unicode line or paragraph separator: `\s+` starts a heading there but `.+$` does not
  match, and the paragraph branch takes no line. `TerminatesIff` gives the exact condition. Text
  that went through the markup stripper never meets it (`RewritesTerminate`); the original
  article, which the same page shows, did not go through it.
- An article is current after a publication exactly when the configured model names are distinct
  (`PublishedIsCurrentIff`); uniqueNonEmptyStrings ensures that.
- The cache keys of two users meet exactly when one id followed by a colon starts the other one
  followed by a colon (`KeysMeetIff`). The backend issues UUIDs (migrate.go:68), which hold no
  colon, so the keys of real users never meet (`KeysDisjoint`).
- The request limiter lets up to 2 * limit - 1 requests through within one window's length, and
  that bound is reached. A limit below one acts as one.
- The constructor of the rewrite control can end with a cap below its base; the condition is in
  its contract. The loader rejects such settings (llm_rewriter.go:156-158), and the bounds above
  hold in that case too.

## Assumptions

- The run theorems of the admission control, the request limiter and the cache, and the termination
  of the job queue, take the clock as nondecreasing in the order of events. The admission control
  reads the clock before taking its lock (rewrite_control.go:100 and 179). The quota theorems and
  the safety of the job queue assume no order: their instants are fixed when a transaction begins,
  and transactions of different users overlap.
- A worker whose ten-minute lease has expired is dead. Updates of the job table match on the
  article only, so `ExclusiveHolder` and `RetryBudget` need it.
- Encoding a cache entry and decoding it gives the entry back.
- A reading transaction that found its daily choice made does not stay open for the six days after
  which that choice may be deleted.
- CURRENT_DATE and the month of a date never go back when the clock does not.

## Model

| member | source | states |
|---|---|---|
| RewriteAdmission.WindowLimit | backend/services/rewrite_control.go:118-176 | over every run with a nondecreasing clock, each half-open interval of one window holds at most `startLimit` reservations that were never handed back |
| RewriteAdmission.WaitIffNoReservation | backend/services/rewrite_control.go:99-104 | in every reachable state a call asks for no wait exactly when it returns a reservation, and reservation numbers are consecutive |
| RewriteAdmission.AdmittedIff | backend/services/rewrite_control.go:122-142 | a caller is admitted exactly when the breaker is closed or its instant has come and fewer than `startLimit` kept reservations lie in the window that ends now |
| RewriteAdmission.WaitIsLowerBound | backend/services/rewrite_control.go:123-136 | a refused caller cannot be admitted before now + wait, whatever else happens short of a hand-back |
| RewriteAdmission.WindowWaitIsExact | backend/services/rewrite_control.go:127-136 | when the window is what blocks, a retry after exactly the wait is admitted, whatever callers retried in between |
| RewriteAdmission.BreakerWaitExactIff | backend/services/rewrite_control.go:122-136 | when the breaker blocks, it opens at exactly the wait, and a retry then is admitted exactly when the window has room |
| RewriteAdmission.BreakerHolds | backend/services/rewrite_control.go:123-125 | after a recorded 429 nothing is admitted before the returned instant; that instant only moves later while ahead and stays within the clock plus `backoffMax` |
| RewriteAdmission.BlockedRun | backend/services/rewrite_control.go:118-161 | neither gate opens early: an open breaker survives hand-backs, a full window survives everything but hand-backs |
| RewriteAdmission.BackoffExactIff | backend/services/rewrite_control.go:183-190 | the halving loop gives min(backoffMax, base * 2^(n-1)) for every count, plus one nanosecond exactly when n >= 2 and the doubled base falls one short of the cap; always exact for an even cap |
| RewriteAdmission.DelayIs | backend/services/rewrite_control.go:183-190 | what each turn of the loop leaves: the doubled base while it is more than one below the cap, then the cap |
| RewriteAdmission.OddCapOvershoots | backend/services/rewrite_control.go:186-189 | a cap, not in whole seconds, for which the loop gives one more than the capped power |
| RewriteAdmission.DoubledIsPower | backend/services/rewrite_control.go:183-190 | the doubled base is base * 2^(n-1) |
| RewriteAdmission.BackoffMonotone | backend/services/rewrite_control.go:182-190 | more consecutive 429 answers never shorten the backoff |
| RewriteAdmission.CooldownBounds | backend/services/rewrite_control.go:183-204 | for any Retry-After and any jitter draw the cooldown is at least the backoff and the capped hint, at most `backoffMax`, and jitter adds at most a fifth |
| RewriteAdmission.HintHonouredIff | backend/services/rewrite_control.go:191-218 | a Retry-After delay is honoured in full exactly when it is within the cap or the breaker was already open that long |
| RewriteAdmission.LongHintIsCut | backend/services/rewrite_control.go:194-196 | an hour asked for with the default settings is cut to fifteen minutes |
| RewriteAdmission.JitterReachesAll | backend/services/rewrite_control.go:197-204 | the jitter can be every value from none up to a fifth of the floor, as far as the cap leaves room |
| RewriteAdmission.StreakIsCounted | backend/services/rewrite_control.go:182-230 | over any run the count of consecutive 429 answers is the number recorded since the last success on a closed breaker |
| RewriteAdmission.RepeatedLimitsBackOff | backend/services/rewrite_control.go:182-218 | the k-th 429 in a row opens the breaker for at least min(backoffMax, base * 2^(k-1)), and without a hint for at most a fifth more |
| RewriteAdmission.EveryLimitCounts | backend/services/rewrite_control.go:182-190 | without a success every 429 counts, whatever reservations, hand-backs and checks come between |
| RewriteAdmission.SuccessResetsBackoff | backend/services/rewrite_control.go:221-230 | a success on a closed breaker makes the next 429 wait the base again; one while it is open changes nothing |
| RewriteAdmission.SecondPauseIsDouble | backend/services/rewrite_control.go:182-218 | at default settings a second 429 after the first pause gives a pause of two minutes |
| RewriteAdmission.Prune | backend/services/rewrite_control.go:127-134 | what is left after pruning starts inside the window |
| RewriteAdmission.PruneLive | backend/services/rewrite_control.go:127-134 | on a log in time order pruning the expired prefix keeps exactly the entries inside the window |
| RewriteAdmission.WithoutLive | backend/services/rewrite_control.go:170-175 | a hand-back removes exactly that reservation from the log |
| RewriteAdmission.AdmitKeepsWindow | backend/services/rewrite_control.go:135-142 | a new reservation keeps every window within the limit |
| RewriteAdmission.StepKeepsInv | backend/services/rewrite_control.go:118-230 | every operation keeps the invariant that ties the log to the history of reservations and hand-backs |
| RewriteAdmission.RewriteControl.constructor | backend/services/rewrite_control.go:50-77 | each setting is kept when valid and otherwise replaced by ten, a minute, a minute and fifteen minutes; the cap ends below the base exactly when the given cap is below a base that exceeds the default cap |
| RewriteAdmission.RewriteControl.NextAPIKey | backend/services/rewrite_control.go:79-91 | keys are handed out round robin with their one-based slot; an empty pool is an error |
| RewriteAdmission.RewriteControl.CloseExpiredBreaker | backend/services/rewrite_control.go:155-161 | the breaker closes exactly when its instant has passed |
| RewriteAdmission.RewriteControl.TryReserveJobStart | backend/services/rewrite_control.go:118-143 | the new state, reservation and wait are those of the specification the run theorems are about |
| RewriteAdmission.RewriteControl.CooldownUntil | backend/services/rewrite_control.go:145-153 | open exactly while the recorded instant lies ahead |
| RewriteAdmission.RewriteControl.ReleaseJobStart | backend/services/rewrite_control.go:164-176 | removes the first entry with the id, or nothing for the zero or an unknown id |
| RewriteAdmission.RewriteControl.BackoffDelay | backend/services/rewrite_control.go:182-196 | the loop, clamped, gives the capped power of the base, or one more in the one case named; no delay exceeds the larger of base and cap |
| RewriteAdmission.RewriteControl.CooldownDelay | backend/services/rewrite_control.go:182-204 | hint, clamp and jitter give the specified cooldown |
| RewriteAdmission.RewriteControl.RecordRateLimit | backend/services/rewrite_control.go:178-219 | opens or extends the breaker by the specified cooldown and never shortens it |
| RewriteAdmission.RewriteControl.RecordSuccess | backend/services/rewrite_control.go:221-230 | clears the count only while the breaker is closed |
| RetryAfter.SecondsReadExactlyIff | backend/services/llm_rewriter.go:369-373 | a positive number of seconds is read as that delay exactly when it is at most 9223372036; larger ones wrap in 64 bits |
| RetryAfter.OverflowingSecondsIgnored | backend/services/llm_rewriter.go:369-373 | one second more is read as a negative delay |
| RetryAfter.HeaderHonoured | backend/services/llm_rewriter.go:337-342 | with separate clock readings for parsing and recording, a future date, or a number that fits, keeps the breaker open as long as it asks for, up to the cap |
| RetryAfter.SecondsHonouredIff | backend/services/llm_rewriter.go:337-342 | for every positive number: the breaker is sure to stay open that long, up to the cap, exactly when the number is at most 9223372036, or the wrapped delay, the backoff or the recorded instant reaches the cap anyway |
| RetryAfter.OverflowShortensPause | backend/services/llm_rewriter.go:337-342 | the first larger number pauses the workers for one minute at default settings |
| RetryAfter.HeaderNotExceeded | backend/services/llm_rewriter.go:337-342 | nor does a closed breaker open for longer than a fifth above the larger of the backoff and the delay asked for; a missing, unreadable or past header asks for nothing |
| RetryAfter.WrapIsCongruent | backend/services/llm_rewriter.go:370-372 | the wrapped value is the one in the 64-bit range congruent modulo two to the 64 |
| RewriteCalls.RewriteArticle | backend/services/llm_rewriter.go:242-362 | an open breaker stops the call before a key is used; a 429 opens the breaker with the parsed hint; only an accepted answer clears the count; any other failure leaves breaker and log alone |
| RewriteCalls.RateLimitHoldsBack | backend/services/llm_rewriter.go:337-342 | until the instant a 429 sets, no worker is admitted and the job it interrupted cannot be claimed, and its retry budget is what it was |
| RewriteCalls.RateLimitIff | backend/services/llm_rewriter.go:49-56 | exactly an open breaker and a 429 count as rate limits, and they name the instant to wait for |
| RewriteWorkers.ClaimsPerWindow | backend/handlers/articles.go:56-79 | under every interleaving of any number of workers at most `startLimit` jobs admitted within one window are claimed |
| RewriteWorkers.NoSlotLeaks | backend/handlers/articles.go:63-73 | every reservation issued was claimed, handed back, or is with a worker |
| RewriteWorkers.NextKeepsInv | backend/handlers/articles.go:56-79 | a held reservation belongs to one worker and is neither claimed nor handed back |
| RewriteQueue.ExclusiveHolder | backend/handlers/articles.go:605-646 | in every reachable state, with statements in any order of their instants, at most one live worker holds an article, and the row carries its claim |
| RewriteQueue.RetryBudget | backend/handlers/articles.go:774-796 | attempts are the claims that were not rate limited and exceed the maximum by at most the expired leases; a job fails only when failures and expired leases have used the budget |
| RewriteQueue.RateLimitedClaimIsFree | backend/handlers/articles.go:799-808 | a claim answered with a rate limit changes nothing in the row but its next start, which is not before the retry time |
| RewriteQueue.NextKeepsInv | backend/handlers/articles.go:538-796 | every step keeps row, ledger and holder in agreement |
| RewriteQueue.ClaimableIff | backend/handlers/articles.go:622-623 | a row can be claimed exactly when it is pending and due, or running and locked for more than ten minutes |
| RewriteQueue.AbandonedJobIsReclaimed | backend/handlers/articles.go:622-640 | from every reachable state, even if every worker dies, any new worker can claim an unfinished job from a certain instant on, and its claim is recorded |
| RewriteQueue.EnqueuedIsClaimable | backend/handlers/articles.go:546-551 | a new or finished job can be claimed from the moment it is enqueued, with its whole budget; any other job is left alone |
| RewriteQueue.FailureDelays | backend/handlers/articles.go:775-792 | an ordinary failure delays the job by five seconds times the square of its attempts, and fails it for good at the limit |
| RewriteQueue.WorkLowersPotential | backend/handlers/articles.go:605-796 | every claim, also of an abandoned job, publication and ordinary failure lowers a potential summed over the jobs |
| RewriteQueue.LossAbandonsOne | backend/handlers/articles.go:622-623 | a lost worker raises it by at most one |
| RewriteQueue.EnqueueAddsRank | backend/handlers/articles.go:546-551 | an enqueue that restarts nothing adds at most the rank of one new job |
| RewriteQueue.SomeStepEnabled | backend/handlers/articles.go:605-646 | while a job is neither completed nor failed some worker can take a step, also when every other worker is lost |
| RewriteQueue.CalmRunsComeToRest | backend/handlers/articles.go:538-796 | a run in time order without rate limits and restarts, in which articles may arrive and workers may be lost, is bounded by the potential, the arrivals and twice the losses; when no worker can go on every job is completed or failed |
| RewriteStore.UniqueNonEmptyStrings | backend/services/llm_rewriter.go:180-191 | the loop computes the first occurrences of the trimmed non-empty values |
| RewriteStore.UniqueIsDistinct | backend/services/llm_rewriter.go:180-191 | the result has no repetition and holds exactly the non-empty trimmed values |
| RewriteStore.UniqueInOrder | backend/services/llm_rewriter.go:180-191 | in the order in which they come first |
| RewriteStore.PublishedCoverage | backend/handlers/articles.go:712-747 | a publication covers exactly the rewritten models of its article; no other article or model gains or loses a rewrite |
| RewriteStore.PublishedIsCurrentIff | backend/handlers/articles.go:89-108 | after a publication neither the stale scan nor a reader finds the article outdated, exactly when the configured names are distinct |
| RewriteStore.OutdatedIff | backend/handlers/articles.go:89-108 | an article counts as outdated exactly when it has text and is of an older version or lacks the rewrite of a configured model |
| RewriteStore.PublishedContents | backend/handlers/articles.go:691-747 | a publication stores each model's own rewrite and no other, gives the article the first model's title and text, marks it complete and current, and completes its job; everything else is as it was |
| RewriteStore.FirstTitleIsKept | backend/handlers/articles.go:691-699 | the title before the first publication outlives every later one |
| RewriteStore.FailureMarks | backend/handlers/articles.go:760-792 | an article is marked as failed exactly on the last ordinary failure, and nothing else of any article, rewrite or other job changes |
| RewriteStore.FirstFailureIs | backend/handlers/articles.go:660-666 | the job fails with the error of the first model that fails |
| RewriteStore.ConfiguredModelsSettle | backend/handlers/articles.go:565-595 | names that went through uniqueNonEmptyStrings are distinct, so every publication settles its article |
| RewriteStore.Store.EnqueueArticleRewrite | backend/handlers/articles.go:538-563 | blank text is not queued, nor anything when the insert fails; a running or pending job is left alone; a finished one restarts with an empty budget; a failed status update is ignored |
| RewriteStore.Store.EnqueueIfOutdated | backend/handlers/articles.go:565-595 | tries to queue exactly when the article is outdated, or has text and the counting query fails |
| RewriteStore.Store.ClaimArticleRewriteJob | backend/handlers/articles.go:605-646 | claims a row pending and due or running for more than ten minutes, first by due time and then by age, and stamps it; finds none exactly when there is none; a failed statement or an unreadable row rolls back |
| RewriteStore.Store.FailArticleRewriteJob | backend/handlers/articles.go:760-796 | the row and, on the last attempt, the article are marked as specified |
| RewriteStore.Store.CollectRewrites | backend/handlers/articles.go:658-676 | collects every model's rewrite in configured order, or the first error |
| RewriteStore.Store.WriteRewrites | backend/handlers/articles.go:712-742 | the upserts of the transaction cover every configured model, or the first broken statement stops them |
| RewriteStore.Store.ProcessArticleRewriteJob | backend/handlers/articles.go:648-758 | all rewrites are published with the completed job, or nothing is and the job fails, whichever statement breaks |
| UsageReservation.Serializable | backend/handlers/entitlements.go:170-201 | every statement-level interleaving, with aborts and cleanups, equals the calls run one after another in some order, with the same answers and rows |
| UsageReservation.EndedComesFirst | backend/handlers/entitlements.go:170-201 | that order keeps real time: a call that had its answer before another began comes first |
| UsageReservation.DailyLimit | backend/handlers/entitlements.go:185-201 | no user has more rows of a kind on a day than its limit, and the branch for a lost insert is never reached |
| UsageReservation.NextKeepsInv | backend/handlers/entitlements.go:170-201 | each statement keeps what exists, count and insert rely on, because the lock covers all three |
| UsageReservation.ReplayWithinLimit | backend/handlers/entitlements.go:189-195 | no serial history exceeds a limit |
| UsageReservation.AllowanceIsExact | backend/handlers/entitlements.go:185-201 | on a day without rows of a kind the first ten different fetches, or five different reasonings, are granted and no more, whatever other users, days and kinds have |
| UsageReservation.RepeatIsFree | backend/handlers/entitlements.go:178-184 | what was granted is granted again that day without a further row |
| UsageReservation.SomeCallAdvances | backend/handlers/entitlements.go:170-201 | no deadlock: while some call has no answer some transaction can go on |
| UsageReservation.AdvancingEnds | backend/handlers/entitlements.go:170-201 | each statement brings its transaction nearer to the end |
| UsageReservation.ErrorsAreAborts | backend/handlers/entitlements.go:195-201 | only an aborted transaction answers with an error |
| UsageReservation.CleanedIff | backend/services/read_tracking.go:44-48 | the cleanup removes exactly the bias rows older than six days |
| ReadTransactions.ReadsAreSerializable | backend/handlers/entitlements.go:56-145 | every statement-level interleaving of readings, failures and cleanups equals whole calls in some order, with the same rows, answers and expiries; the insert of a daily choice never meets a row |
| ReadTransactions.InterleavedQuotasHold | backend/handlers/entitlements.go:56-145 | under every interleaving and any order of clock readings: the monthly limit holds unless a cleanup deletes the month's counters between two of the user's readings in it, the counter is the number of metered openings unless one does so after a reading, one free article per category and date unless the day's choices are deleted between two readings; when no call is decided after a cleanup that deleted what it looks at, the answers are those without cleanup |
| ReadTransactions.MonthTurnRace | backend/handlers/entitlements.go:68-103 | a reachable run at any turn of a month in which a limit of one lets two articles through: the second reading waits for the lock while the cleanup runs |
| ReadTransactions.EndedComesFirst | backend/handlers/entitlements.go:56-145 | the serial order keeps real time: a call that had its answer before another began comes first |
| ReadTransactions.CommitIsRead | backend/handlers/entitlements.go:87-144 | the rows a commit makes visible are what the whole call does at that moment |
| ReadTransactions.DecisionIsRead | backend/handlers/entitlements.go:73-117 | an answer given without writing is the whole call's answer at that moment |
| ReadTransactions.FeeIsDue | backend/handlers/entitlements.go:87-129 | an undecided transaction carries the charge that the quota asks for |
| ReadTransactions.CleanKeepsInv | backend/services/read_tracking.go:21-51 | a cleanup between two statements of a transaction disturbs nothing it relies on |
| ReadTransactions.SomeCallAdvances | backend/handlers/entitlements.go:56-145 | no deadlock: while some reading has no answer some transaction can go on |
| ReadTransactions.AdvancingEnds | backend/handlers/entitlements.go:56-145 | each statement brings its transaction nearer to the end |
| ReadTransactions.ErrorsAreFaults | backend/handlers/entitlements.go:56-145 | a reading fails only when one of its statements does |
| ReadTransactions.NextKeepsInv | backend/handlers/entitlements.go:56-145 | every statement keeps the invariant |
| ReadEntitlements.CleanupInvisible | backend/services/read_tracking.go:21-51 | while no call is dated before what an earlier cleanup deleted, any run of readings and reservations gives the same answers and expiries with its cleanup statements left out; calls and cleanups may otherwise come in any order of time |
| ReadEntitlements.TimelyIsInOrder | backend/services/read_tracking.go:21-51 | a nondecreasing clock is one such order |
| ReadEntitlements.ReadAgrees | backend/handlers/entitlements.go:73-144 | two databases that agree on the rows that still matter answer a reading alike and go on agreeing |
| ReadEntitlements.ReserveAgrees | backend/handlers/entitlements.go:170-201 | the same for a reservation |
| ReadEntitlements.CleanupKeepsSimilar | backend/services/read_tracking.go:21-51 | each cleanup statement removes only rows that no longer matter |
| ReadEntitlements.CleanupLeaves | backend/services/read_tracking.go:21-51 | a whole cleanup leaves exactly the grants that expire later, the choices and bias reads of the last seven dates, the counters of this month on, and all URL fetches |
| ReadEntitlements.CanonicalIs | backend/handlers/entitlements.go:203-209 | a category is its text without outer white space, in lower case, or "general" when there is none |
| ReadEntitlements.UnlimitedIsFree | backend/handlers/entitlements.go:57-59 | unlimited reading opens everything without a row |
| ReadEntitlements.Handler.RecordArticleRead | backend/handlers/entitlements.go:56-145 | the specified rows and answer; a refused call, and one under a live grant, changes no table |
| ReadEntitlements.Handler.ReserveDailyUsage | backend/handlers/entitlements.go:170-201 | the specified rows and answer; granted exactly when the row is there afterwards |
| ReadEntitlements.Handler.DeleteExpiredGrants | backend/services/read_tracking.go:24-28 | removes exactly the expired grants and counts them |
| ReadEntitlements.Handler.DeleteOldChoices | backend/services/read_tracking.go:30-35 | keeps exactly the last seven dates and counts the rest |
| ReadEntitlements.Handler.DeleteOldMonths | backend/services/read_tracking.go:37-42 | keeps exactly the current month and later, and counts the rest |
| ReadEntitlements.Handler.DeleteOldBiasReads | backend/services/read_tracking.go:44-48 | keeps URL fetches and the last seven dates, and counts the rest |
| ReadEntitlements.Handler.CleanupReadTracking | backend/services/read_tracking.go:21-51 | runs the four statements up to the first that fails; the counts are exactly the rows removed |
| ReadQuotas.QuotasHold | backend/handlers/entitlements.go:87-103 | for events in any order of time: unless the month's counters are deleted between two of the user's readings in it, the metered openings stay within the largest limit; unless they are deleted after one, the counter is their number |
| ReadQuotas.ChoicesHold | backend/handlers/entitlements.go:105-125 | unless the day's choices are deleted between two of the user's readings on it, the free openings of a category are of one article |
| ReadQuotas.MonthlyLimitIff | backend/handlers/entitlements.go:87-103 | given who reads and when the cleanup runs, the monthly quota is kept for all articles and plans exactly when the month's counters are not deleted between two readings of the user in that month |
| ReadQuotas.DailyChoiceIff | backend/handlers/entitlements.go:105-125 | the same exact condition for the one free article of a category and date |
| ReadQuotas.MeteredRefusedIff | backend/handlers/entitlements.go:87-103 | a metered user is refused exactly when there is no live grant and the month's metered openings have used up the limit, unless the month's counters were deleted |
| ReadQuotas.FreeRefusedIff | backend/handlers/entitlements.go:105-126 | a free user is refused exactly when there is no live grant and another article of the category was opened free that day, unless the day's choices were deleted |
| ReadQuotas.PaidStaysOpen | backend/handlers/entitlements.go:73-84 | what was paid for stays open for seven days at no cost, whatever calls and timely cleanups come between |
| ReadQuotas.MonthTurnRace | backend/services/read_tracking.go:37-42 | at any turn of a month: a reading, the cleanup, and a second reading begun before the turn give two openings under a limit of one |
| ReadQuotas.InOrderKeepsQuotas | backend/handlers/entitlements.go:56-145 | both quotas hold for everyone when no reading is dated before what an earlier cleanup deleted |
| ReadQuotas.TimelyKeepsQuotas | backend/handlers/entitlements.go:56-145 | in a run in time order, too, the counter of the current month is the number of its metered openings |
| ReadQuotas.AccessWasPaid | backend/handlers/entitlements.go:73-84 | in any order of events: whoever is let in without unlimited reading has an expiry ahead, seven days after an opening of that article they paid for |
| AccessCache.CacheRefinesTimedMap | mobile/lib/services/article_access_cache.dart:20-140 | over any run by colon-free users with a nondecreasing clock every get answers as one timed map |
| AccessCache.OperationRefines | mobile/lib/services/article_access_cache.dart:20-142 | each operation keeps the refinement; a peek that answers agrees with the map |
| AccessCache.QuietOperation | mobile/lib/services/article_access_cache.dart:20-47 | get, peek, warm and clearMemory change no live entry |
| AccessCache.UpdateRefines | mobile/lib/services/article_access_cache.dart:80-117 | an update rewrites one live entry and keeps its expiry |
| AccessCache.PutRefines | mobile/lib/services/article_access_cache.dart:49-78 | a put writes one entry and pruning touches no live one |
| AccessCache.FreshRefines | mobile/lib/services/article_access_cache.dart:11-15 | other preferences do not disturb a fresh cache |
| AccessCache.RetentionHolds | mobile/lib/services/article_access_cache.dart:49-140 | over any run from a fresh installation every readable persisted article expires at the minimum of the server expiry and the put time plus seven days, both of the last accepted put under its key; memory holds the same entry |
| AccessCache.OperationKeepsProvenance | mobile/lib/services/article_access_cache.dart:20-180 | each of the six operations keeps that every entry goes back to its last accepted put |
| AccessCache.GrantsExpireInTime | mobile/lib/services/article_access_cache.dart:57-62 | from any earlier contents within the retention no grant expires more than seven days after the clock, and other preferences are never touched |
| AccessCache.WarmMakesPeekComplete | mobile/lib/services/article_access_cache.dart:119-140 | after warming, peek answers exactly as get |
| AccessCache.PutThenGet | mobile/lib/services/article_access_cache.dart:49-78 | an accepted put is what every get answers until the server's expiry or for seven days; a put without id or expiry ahead does nothing |
| AccessCache.UpdateThenGet | mobile/lib/services/article_access_cache.dart:80-117 | after an update a get answers exactly when it would have without it, with the versions of the given id carrying exactly the given label and reasoning, available and unlocked, and everything else as it was |
| AccessCache.PutUpdateGet | mobile/lib/services/article_access_cache.dart:49-117 | put, update, get: the article as put, so updated |
| AccessCache.NothingStaleIsLeft | mobile/lib/services/article_access_cache.dart:121-180 | after an accepted put and after warming no unreadable or expired article is left |
| AccessCache.WarmLoadsOwn | mobile/lib/services/article_access_cache.dart:121-135 | warming loads exactly the user's own live entries |
| AccessCache.GetDropsStale | mobile/lib/services/article_access_cache.dart:20-47 | a get that finds nothing leaves nothing under the key |
| AccessCache.KeysMeetIff | mobile/lib/services/article_access_cache.dart:17-18 | the keys of two users meet exactly when one id followed by a colon starts the other one followed by a colon |
| AccessCache.KeysDisjoint | mobile/lib/services/article_access_cache.dart:17-18 | colon-free users never share a key, nor a prefix another's key |
| AccessCache.ColonsCollide | mobile/lib/services/article_access_cache.dart:17-18 | two ids, one with a colon, whose keys meet, and two whose keys do not |
| AccessCache.ArticleAccessCache.Peek | mobile/lib/services/article_access_cache.dart:20-30 | the specified state and answer |
| AccessCache.ArticleAccessCache.Get | mobile/lib/services/article_access_cache.dart:32-47 | the specified state and answer |
| AccessCache.ArticleAccessCache.Put | mobile/lib/services/article_access_cache.dart:49-78 | the specified state: expiry capped, rejected when missing or past |
| AccessCache.ArticleAccessCache.UpdateBiasReasoning | mobile/lib/services/article_access_cache.dart:80-117 | the loop unlocks exactly the versions with the given id |
| AccessCache.ArticleAccessCache.LoadLive | mobile/lib/services/article_access_cache.dart:121-135 | one pass loads exactly this user's live entries and collects the stale keys of all users |
| AccessCache.ArticleAccessCache.Warm | mobile/lib/services/article_access_cache.dart:121-140 | then the stale keys go from both levels |
| AccessCache.ArticleAccessCache.ClearMemory | mobile/lib/services/article_access_cache.dart:142 | memory is emptied, nothing persisted changes |
| AccessCache.ArticleAccessCache.Prune | mobile/lib/services/article_access_cache.dart:167-180 | exactly the stale article keys go, from both levels |
| NewsPager.PagerCorrect | mobile/lib/providers/news_provider.dart:22-139 | in every reachable state: loading means exactly one current request in flight; the list is pages 1 to currentPage-1 of the selected category accepted in this generation, in order |
| NewsPager.LateComparisonsAreHarmless | mobile/lib/providers/news_provider.dart:78-133 | a comparison changes at most one article's versions, never ids, order or length, and nothing when its generation is over |
| NewsPager.OriginalTitlesStay | mobile/lib/providers/news_provider.dart:93-133 | in every reachable state the first version of every article has the title the article came with, however late comparisons arrive and even when two articles share an id |
| NewsPager.LoadSendsOne | mobile/lib/providers/news_provider.dart:22-41 | a load that is not held back sends exactly one request, for the next page or on refresh the first; any other does nothing |
| NewsPager.CategoryReloads | mobile/lib/providers/news_provider.dart:135-139 | another category empties the list and asks for its first page |
| NewsPager.PageAsksComparisons | mobile/lib/providers/news_provider.dart:42-55 | an accepted page is appended and the comparison of each of its articles asked for, one request each |
| NewsPager.ComparisonIsShown | mobile/lib/providers/news_provider.dart:92-129 | a comparison in time is shown on the first article with the id: its first title, then the two rewrites in the order answered |
| NewsPager.FailureCanBeRetried | mobile/lib/providers/news_provider.dart:56-67 | a failed load shows its message and keeps the list; trying again asks for the same page |
| NewsPager.LoadKeepsInv | mobile/lib/providers/news_provider.dart:22-41 | starting a load keeps the invariant, with or without refresh or a new category |
| NewsPager.PageKeepsInv | mobile/lib/providers/news_provider.dart:42-67 | accepting a page keeps it |
| NewsPager.ComparisonKeepsInv | mobile/lib/providers/news_provider.dart:78-133 | a comparison keeps it |
| NewsPager.NewsProvider.LoadArticles | mobile/lib/providers/news_provider.dart:22-41 | the specified step up to the request |
| NewsPager.NewsProvider.SelectCategory | mobile/lib/providers/news_provider.dart:135-139 | the same category changes nothing, another one reloads |
| NewsPager.NewsProvider.FetchComparison | mobile/lib/providers/news_provider.dart:78-84 | asks for the first article with the id |
| NewsPager.NewsProvider.FetchComparisons | mobile/lib/providers/news_provider.dart:70-76 | one request for each id, in order |
| NewsPager.NewsProvider.FeedArrived | mobile/lib/providers/news_provider.dart:42-67 | the specified step after the response, with one comparison request per new article in order |
| NewsPager.NewsProvider.ComparisonArrived | mobile/lib/providers/news_provider.dart:84-132 | the specified step after the response |
| NewsPager.IndexOf | mobile/lib/providers/news_provider.dart:80-81 | the first index with the id |
| FeedInterleaving.OrderIsMerge | backend/services/news_crawler.go:232-252 | from each feed the result takes exactly that feed's articles in their order, and nothing else |
| FeedInterleaving.InterleavingIsFair | backend/services/news_crawler.go:232-252 | in every prefix two feeds are at most one article apart unless the one behind has run out |
| FeedInterleaving.OrderIsRoundRobin | backend/services/news_crawler.go:239-250 | when a feed gives its article number c, every feed before it has given c + 1 and every feed after it c, or all it has |
| FeedInterleaving.TotalReachesSum | backend/services/news_crawler.go:239-250 | until everything is taken a round adds something, so the early exit is never taken |
| FeedInterleaving.RoundsTaken | backend/services/news_crawler.go:239-250 | after n rounds each feed has given its first n articles |
| FeedInterleaving.InterleaveFeedArticles | backend/services/news_crawler.go:232-252 | the nested loops terminate with that merge |
| NewsCrawler.SlotsConserved | backend/services/news_crawler.go:130-142 | under every interleaving, with retried swaps and refunds, the counter is rows inserted plus slots in use, between 0 and the limit; from the deduplicated queue no two rows have the same URL, and each is a non-empty feed URL not stored before |
| NewsCrawler.ReachableInv | backend/services/news_crawler.go:254-264 | the counting and URL invariants hold in every reachable state |
| NewsCrawler.NextKeepsInv | backend/services/news_crawler.go:254-264 | every step of every worker keeps them |
| NewsCrawler.EveryUrlIsInserted | backend/services/news_crawler.go:130-142 | when the limit has room for all and every fetch inserts its row, exactly the distinct non-empty URLs are inserted, each once, under every interleaving |
| NewsCrawler.DroppedOnlyAtLimit | backend/services/news_crawler.go:254-264 | a job is dropped only when the counter is at the limit at that moment |
| NewsCrawler.SwapTakesOrRetries | backend/services/news_crawler.go:260-262 | a swap takes a slot exactly when the counter was not changed in between, and is tried again otherwise |
| NewsCrawler.MissGivesBack | backend/services/news_crawler.go:136-138 | a fetch that inserts nothing gives its slot back |
| NewsCrawler.FreshIsDistinct | backend/services/news_crawler.go:205-216 | the jobs are the distinct non-empty URLs |
| NewsCrawler.FreshInOrder | backend/services/news_crawler.go:205-216 | in the order in which they come first |
| NewsCrawler.QueueJobs | backend/services/news_crawler.go:205-225 | the loop with its seen set computes them, up to where it stops |
| RequestLimiter.WindowBound | backend/middleware/ratelimit.go:41-63 | over any requests with a nondecreasing clock any half-open window serves a key at most 2 * max(1, limit) - 1 times |
| RequestLimiter.BoundIsReached | backend/middleware/ratelimit.go:41-63 | a timely run of the limiter with its sweep that reaches the bound |
| RequestLimiter.SweepInvisible | backend/middleware/ratelimit.go:45-51 | the sweep on every thousandth call never changes an answer |
| RequestLimiter.SweepLeaves | backend/middleware/ratelimit.go:45-51 | the sweep leaves exactly the keys whose window is not over |
| RequestLimiter.KeysAreIndependent | backend/middleware/ratelimit.go:52-62 | a key is served exactly as if no other key ever asked |
| RequestLimiter.RefusedOnlyWhenFull | backend/middleware/ratelimit.go:57-59 | a refused request finds at least the limit served to its key within one window's length |
| RequestLimiter.DecideAgrees | backend/middleware/ratelimit.go:52-62 | limiters with the same current windows answer alike |
| RequestLimiter.DecideKeepsKey | backend/middleware/ratelimit.go:52-62 | one request keeps the invariant of a key's entry |
| RequestLimiter.RateLimiter.DeleteExpired | backend/middleware/ratelimit.go:45-51 | the loop deletes exactly the keys whose window is over |
| RequestLimiter.RateLimiter.Allow | backend/middleware/ratelimit.go:41-63 | the specified entries and answer, with the sweep on every thousandth call |
| MarkdownBlocks.TerminatesIff | frontend/src/components/MarkdownContent.tsx:26-108 | the parser ends exactly when no line outside code fences starts a heading whose text holds a line terminator |
| MarkdownBlocks.CarriageReturnLoops | frontend/src/components/MarkdownContent.tsx:52-104 | one heading line with an inner carriage return keeps it from ending |
| MarkdownBlocks.BlockAdvances | frontend/src/components/MarkdownContent.tsx:40-104 | every other line moves the parser on and leaves it outside fences |
| MarkdownBlocks.SegmentsTile | frontend/src/components/MarkdownContent.tsx:26-108 | blocks and skipped blank lines partition the lines in order, and every block is a maximal run of its kind |
| MarkdownBlocks.BlocksShown | frontend/src/components/MarkdownContent.tsx:26-108 | every block shows all of its lines: code as it is between the fences, a heading, list, quote or paragraph the trimmed text of each line without its mark, in order; its kind is the first test its first line passes, and it ends where the lines of its kind end |
| MarkdownBlocks.CodeIsVerbatim | frontend/src/components/MarkdownContent.tsx:40-48 | the text of a code block splits into exactly its lines |
| MarkdownBlocks.LinesOfIs | frontend/src/components/MarkdownContent.tsx:27 | the lines are the pieces between line feeds, less one carriage return at the end of each but the last |
| MarkdownBlocks.TakeRun | frontend/src/components/MarkdownContent.tsx:40-103 | the inner loops take exactly the lines of their kind |
| MarkdownBlocks.ParseBlock | frontend/src/components/MarkdownContent.tsx:40-104 | one turn of the main loop |
| MarkdownBlocks.ParseBlocks | frontend/src/components/MarkdownContent.tsx:26-108 | the loop returns one block for each stretch of lines, which shows those lines, or the line at which it no longer moves |
| MarkdownLines.StuckIff | frontend/src/components/MarkdownContent.tsx:52-113 | the two heading tests disagree on a trimmed line exactly when the heading text holds a line terminator |
| MarkdownLines.HeadingRegexIff | frontend/src/components/MarkdownContent.tsx:52 | the heading expression, with any way of splitting the line, matches exactly the modelled headings |
| MarkdownLines.ClassesConsistent | frontend/src/components/MarkdownContent.tsx:110-119 | the tests for a fence or a heading start exclude those of all other branches |
| MarkdownText.ClassIs | frontend/src/components/MarkdownContent.tsx:110-119 | every test on a line, by the shape of the line without its outer blanks |
| MarkdownText.StripIsTrim | frontend/src/components/MarkdownContent.tsx:32 | trimming leaves what lies between the blanks |
| MarkdownText.TrimIsUnique | frontend/src/components/MarkdownContent.tsx:32 | and nothing else does |
| MarkdownText.HeadingText | frontend/src/components/MarkdownContent.tsx:52-58 | a heading line is its marks, blanks and the text kept |
| MarkdownText.BulletText | frontend/src/components/MarkdownContent.tsx:69-74 | a list line is its mark, blanks and the item kept |
| MarkdownText.NumberText | frontend/src/components/MarkdownContent.tsx:79-84 | a numbered line is its number, blanks and the item kept |
| MarkdownText.QuoteTextIs | frontend/src/components/MarkdownContent.tsx:89-94 | a quote line is its mark, blanks and the text kept |
| TextCleaner.NormalIsIdempotent | backend/services/text_cleaner.go:95-113 | normalising twice is normalising once, and the texts left unchanged are exactly those made of clean lines |
| TextCleaner.OutputIsClean | backend/services/text_cleaner.go:95-113 | no blank line at either end, no two in a row, words separated by single spaces |
| TextCleaner.NormalKeepsWords | backend/services/text_cleaner.go:95-113 | the output has the words of the input, in order |
| TextCleaner.ParagraphsAreKept | backend/services/text_cleaner.go:95-113 | the output has the lines of the input, squeezed, in the same paragraphs |
| TextCleaner.CleanIsFixed | backend/services/text_cleaner.go:95-113 | clean lines come through unchanged |
| TextCleaner.NormalizeHTMLText | backend/services/text_cleaner.go:95-113 | the loop with previousBlank computes the specification |
| MarkupStripper.StripKeepsShownWords | backend/services/text_cleaner.go:37-83 | the result has exactly the words outside script and style, in order, and is in normal form |
| MarkupStripper.ScriptLeavesNoTrace | backend/services/text_cleaner.go:53-78 | a script or style element contributes nothing, whatever it holds and wherever it is |
| MarkupStripper.TextIsKept | backend/services/text_cleaner.go:74-77 | text outside script and style joins the words around it |
| MarkupStripper.OtherTagsLeaveNoTrace | backend/services/text_cleaner.go:53-77 | other tags and comments contribute nothing |
| MarkupStripper.ParagraphsStayApart | backend/services/text_cleaner.go:34-76 | a line-oriented tag keeps the words on its two sides apart |
| MarkupStripper.StripHTMLMarkup | backend/services/text_cleaner.go:37-83 | the token loop computes the specification |
| MarkupStripper.BreakKeepsFields | backend/services/text_cleaner.go:85-93 | leaving out a repeated line feed loses no word boundary |
| RewrittenMarkdown.NormalTextTerminates | backend/services/text_cleaner.go:95-113 | the block parser ends on every text that went through the normaliser |
| RewrittenMarkdown.RewritesTerminate | backend/services/llm_rewriter.go:394 | so it ends on every rewrite, whatever tokens the model's answer held |
| Comparisons.EveryPairHasTwoDraws | backend/handlers/comparisons.go:241-262 | every ordered pair of distinct indices comes from exactly two draws |
| Comparisons.EveryPairIsPickedTwice | backend/handlers/comparisons.go:241-262 | through pickPair: every ordered pair of distinct indices is picked for exactly two triples of remainders of the three hashes |
| Comparisons.OnlyRemaindersCount | backend/handlers/comparisons.go:245-258 | only the remainders of the hashes by n, n - 1 and 2 count |
| Comparisons.PickedIs | backend/handlers/comparisons.go:245-259 | the first hash picks one of all, the second one of the others counted from the front, the third which comes first |
| Comparisons.PickPair | backend/handlers/comparisons.go:241-262 | two distinct indices in range, for any hashes |
| Comparisons.TwoRequestsAccepted | backend/handlers/comparisons.go:107-121 | exactly the two orderings of the pair shown to the user are accepted |
| Comparisons.FirstVoteStands | backend/handlers/comparisons.go:123-128 | each stored vote is the user's first accepted choice for the article, and there is one for each such user |
| Comparisons.StoredVotesWereShown | backend/handlers/comparisons.go:47-77 | while an article's rewrites do not change, every vote is for one of the two rewrites shown, and is shown back |
| Comparisons.OneVoteOneCount | backend/handlers/comparisons.go:197-203 | an accepted first vote adds one to one tally; any other request changes none |
| Comparisons.ComparisonHandler.SubmitVote | backend/handlers/comparisons.go:84-135 | each answer exactly in its case, with the stored vote and its two tallies |
| Comparisons.ComparisonHandler.GetComparison | backend/handlers/comparisons.go:36-79 | the pair shown and the user's own vote |

## Left out

- HTTP routing, JSON bodies, logging, JWT, bcrypt, Stripe and TinyFish calls, environment parsing: input and output or libraries that cannot be seen.
- The LLM prompt and the parsing of its answer: an answer holds a rewrite or does not. Of a rewrite the title and text are kept; summaries, categories, images, bias columns and error texts are not, nor the title and summary filled in for empty ones.
- RewriteAdmission.WindowWaitIsExact: says nothing about a run in which a further 429 or a hand-back falls between refusal and retry; there the wait is only a lower bound, or can end sooner.
- RewriteAdmission.RewriteControl.TryReserveJobStart: Go's saturating time difference and the 64-bit reservation counter are unbounded integers here; the zero time is the integer zero.
- The waiting itself (timers, wake channel, cancelled contexts) around admission: a waiting worker tries again at any moment.
- Late writes by a worker whose lease expired, and the deletion of an article under its job.
- RewriteStore.Store.EnqueueArticleRewrite: no other statement runs between its two, so nothing is said about the article's status there.
- RewriteStore.StaleScanSelects: the scan's LIMIT and order are not modelled, only which articles qualify.
- RewriteStore.Store.ProcessArticleRewriteJob: a commit that fails after becoming durable is not modelled.
- UsageReservation.Serializable: the same; an error leaves no row.
- ReadQuotas.AccessWasPaid: seven days are 7 * 24 hours; a daylight-saving change inside PostgreSQL's interval arithmetic is not modelled.
- The choice of a category for an article and the reading of the user's plan: they only feed recordArticleRead.
- ReadQuotas.ChoicesHold: category names are lower-cased for ASCII letters only.
- AccessCache.CacheRefinesTimedMap: each operation is one step; the interleaving of its awaits inside the preferences plug-in, and articles that fail to decode on a put, are not modelled.
- NewsPager.PagerCorrect: change notifications to widgets and the texts of versions other than their titles are not modelled.
- NewsCrawler.EveryUrlIsInserted: a job dropped while other slots were taken is not tried again when they are given back, so nothing is claimed when the limit is smaller than the number of URLs.
- NewsCrawler.SlotsConserved: a slot is claimed for one URL at a time; feed downloads, statistics and the limit check on the inserted counter only decide where the queue stops.
- RequestLimiter.WindowBound: needs clock readings after the zero time; the 64-bit call counter is unbounded here.
- The inline markdown renderer and React components: regular expressions of another kind and display code.
- The HTML tokenizer: the stripper works on any token list. Tag names are lower-cased for ASCII letters only.
- Comparisons.EveryPairHasTwoDraws: SHA-256 is an arbitrary function; that its reductions are evenly spread is not claimed.
- BackfillArticleContent, category normalisation, bias labels, image filtering, the legacy Python backend, migrations and deployment scripts: they would only add easy members or hold no state.
