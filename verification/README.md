# django-waf: a verified model

django-waf filters requests with rules kept in two database tables, caches them
in Redis and in each worker process, counts requests and challenges in Redis, and
changes the rules themselves from periodic tasks, a threat feed and an operator's
review. What is hard about it is shared state touched by many workers. This
project models that state and proves what every run keeps.

Three shapes are used. Code that races is a step system: each Redis command, query
or commit is one step, any number of workers interleave, and a run is the sequence
of states gone through (`RuleCache`, `HitRaces`, `AutoRules`, `EscalationRaces`,
`TokenRaces`). Code that updates a
store in sequence is a class whose methods follow the source statement by statement
and are proved equal to a pure description of the new state, about which the run
theorems are then proved (`RateLimiter`, `HitCounter`, `Escalation`, `Feed`,
`ChallengeTokens`, `LogIngest`). Code that only computes is functions and lemmas
(`RuleEvaluation`, `Detectors`, `PassCookie`, `ClientIp`, `LeadingZeros`).

| file | models |
|---|---|
| `Verdicts.dfy` | from the tables through the cache to the verdict |
| `Rules.dfy` | the rule tables' columns, the managers' filters, the expiry sweep of a row |
| `RuleEvaluation.dfy` | first match through a cached snapshot against first match in the table |
| `RuleCache.dfy` | the versioned three-layer cache under any interleaving of writers and workers |
| `SlidingWindow.dfy`, `RateLimiter.dfy` | the sorted-set pipeline, the three limiters, path resolution |
| `HitCounter.dfy`, `HitRaces.dfy` | hit counters, flush and probe; the same with hits landing between any two commands |
| `Detectors.dfy`, `AutoRules.dfy`, `SubnetCrossing.dfy` | detector provenance, the concurrent upsert and rule lifecycle, which subnets cross |
| `Escalation.dfy`, `EscalationRaces.dfy` | evaluation order, the challenge-or-escalate gate, redirect counting, the solve reset; the same with requests in flight |
| `Feed.dfy` | reconciliation of both tables with a threat feed |
| `LeadingZeros.dfy`, `ChallengeTokens.dfy`, `TokenRaces.dfy`, `PassCookie.dfy` | proof of work, token lifecycle over table and Redis copy, concurrent verification, the signed cookie |
| `ClientIp.dfy` | the forwarded-chain walk |
| `LogIngest.dfy` | access-log ingestion with offset, eviction, rotation and deduplication |
| `Text.dfy`, `Decimals.dfy`, `Wrappers.dfy` | Python's split, join, strip, `str(int)` and `int(str)`; Option |

Passed in as parameters: the clock (every call carries its time), which rules match
a request, regex and address syntax, CIDR membership, SHA-256, HMAC, address
normalisation, the settings, and which Redis or database call fails where that
matters.

## What the proofs found

Ten promises do not hold as stated. Each has a lemma with the failing run or step
and a lemma saying exactly what does hold.

- **A write that bumps the version before it commits can be missed.** Saves made
  inside an open transaction (`threat_feed.py:319`, `anomaly_detector.py:1832`) do
  that. `RuleCache.CommitAfterLastBumpIsMissed` builds, for any writer history, a
  run whose load misses every commit after the last bump; `RuleCache.LoadsAreFresh`
  covers every write whose bump came before the load began.
- **An operator's decision can be undone.** `update_or_create` can find a row
  committed after the guard read none, and then writes defaults the guard never saw
  (`AutoRules.StaleWriteUndoesReject`); and a prune deletes by primary key what it
  selected earlier, decided since or not (`AutoRules.PruneTakesReject`). A decision
  stands exactly as long as neither happens to its row (`AutoRules.DecisionsStand`),
  and it is safe for good exactly when, at the moment it is looked at, no worker is
  about to write the row without having seen it and no prune has selected it
  (`AutoRules.SafeDecisionsStand`, `AutoRules.RiskyDecisionsCanBeLost`).
- **Waiting out Retry-After is not enough.** A refused request is itself counted, so
  the retry can be refused again (`RateLimiter.RequestRetryCanFail` for a request,
  `RateLimiter.RetryAfterCanFail` for a solve). `RateLimiter.RequestPassesIff` and
  `RateLimiter.RetryPassesIff` say when each passes.
- **The escalation threshold is exceeded by overlapping requests.** The count is read
  before it is incremented. With at most n requests of an address in flight the
  bound is threshold + n - 1 (`EscalationRaces.RaceBound`), and it is met
  (`EscalationRaces.RaceBoundIsMet`).
- **An escalation's block entry is overwritten at once.** The middleware records the
  same verdict again with the ordinary TTL and no rule
  (`Escalation.EscalationEntryIsOverwritten`), so the escalation's own TTL never
  takes effect.
- **A token can pass twice.** Two verifications that both read the row before either
  saves it both pass (`TokenRaces.HoldersBothPass`, and at every difficulty
  `TokenRaces.BothPass`); after one pass a verdict saved by another worker is a
  second one if and only if that worker held it already
  (`TokenRaces.PassesAgainIff`).
- **A live Redis copy can outlive its pruned token row** when an issue stalls longer
  than the prune age between computing the expiry and storing the copy; verification
  then raises `DoesNotExist`. `ChallengeTokens.LateCopyLosesItsRow` shows it for
  every longer stall, `ChallengeTokens.CopyIsInvisible` rules it out for every
  shorter one.
- **The flush probe raises instead of reporting a failed write.** A row write that
  fails inside its transaction breaks it, and reading the probe's row back raises.
  `HitCounter.HitStore.Probe` says exactly when, and `HitCounter.ProbeIsHarmlessIff`
  which faults cost counters.
- **A rotated log that has grown past the old offset before the next run is read from
  the middle.** Lines before the offset, and the line it falls inside, are lost
  (`LogIngest.HiddenRotationLoses`), and the rest of that line, if it reads as a
  line of its own, is stored as an event nobody logged
  (`LogIngest.HiddenRotationInvents`). `LogIngest.IngestedExactly` holds for every
  run in which the file is still shorter than the offset when the next run looks;
  `LogIngest.StoredIsRead` holds always, and `LogIngest.HiddenRotationIsHarmlessIff`
  says exactly when nothing is lost and when nothing is invented.

- **Two different log lines can be taken for one event.** The event id joins fields
  with a bar that the timestamp or the method may itself hold
  (`LogIngest.BarsConfuseEvents`); without such bars ids agree exactly when the
  events do (`LogIngest.SameEventIff`).

Two consequences of the code are easy to miss. A block does not lapse while its
address keeps coming, because every Forbidden answer records it anew
(`Escalation.BlockRollsOn`). And confirming an auto rule takes it out of the
detectors' sight, so the next detection of the same thing adds a second rule
(`AutoRules.DetectionAfterConfirm`).

Two comments disagree with the code. `validate_pass_cookie` says it normalises both
addresses; it normalises only the request's, which is enough because an issued
cookie holds a normalised one. The flush calls its GET and DEL pipeline not atomic,
though a client's default pipeline is a transaction; `HitRaces` takes the comment's
weaker reading and lets a hit land between them.

## Model

| member | source | states |
|---|---|---|
| `RuleEvaluation.CheckRules` | src/django_waf/services/rule_engine.py:514-573 | the match loop returns the first unexpired matching cached rule, and nothing only if no unexpired rule matches |
| `RuleEvaluation.CachedIsDirect` | src/django_waf/services/rule_engine.py:514-573 | for a snapshot taken at t0 and any t >= t0, the first match through the cache equals the first match of `active()` asked at t, ties read alike |
| `RuleEvaluation.DirectIsLeast` | src/django_waf/models.py:53-62 | the first match has every cached column of a row that is active, unexpired and matching, of least order among those, and there is none iff no such row |
| `RuleEvaluation.ByOrderSorts` | src/django_waf/models.py:62 | reading a table in order is a sorted permutation of it |
| `RuleEvaluation.MaintenanceIsInvisible` | src/django_waf/tasks.py:384-392 | any number of sweeps and prunes before the snapshot or before the request changes neither the cached nor the direct answer |
| `RuleEvaluation.CachedIsDirectUpToTies` | src/django_waf/models.py:53-62 | whichever way the database breaks ties in either query, and whatever sweeps and prunes ran before them, the cache finds a rule iff the table does, each with the columns of a row in force of the same least order, and of the same row where that order has one match |
| `RuleEvaluation.StoredListAnswers` | src/django_waf/services/rule_engine.py:208-266 | whatever list a rebuild stored at t0, its first unexpired match at t has the id, type, match type, pattern, order, expiry and kind of a row active and unexpired at t, of least order among those that match, and there is none iff no such row |
| `RuleEvaluation.SweepRowsAre` | src/django_waf/tasks.py:384-392 | a sweep leaves unexpired rows alone, deactivates expired ones and marks those still pending as never reviewed, and changes no other column |
| `RuleEvaluation.PruneRowsAre` | src/django_waf/tasks.py:480-492 | a prune removes exactly the inactive auto rows, neither pending nor decided, that expired more than the given days ago |
| `RuleCache.RunKeepsInv` | src/django_waf/services/rule_engine.py:100-266 | in every interleaving, whatever is held under version v, in Redis, in a process or in a worker's hands, was read from states at least as new as v's bump |
| `RuleCache.LoadKnowsItsVersion` | src/django_waf/services/rule_engine.py:113-149 | the version a load is filed under is the one the key held when that load began |
| `RuleCache.LoadsAreFresh` | src/django_waf/services/rule_engine.py:100-149 | every load began with a read of the version at some step, returns rules for the version the key held then, and they were read from committed states that include every write whose bump came before that step, with the lock held or not and entries expiring at any time |
| `RuleCache.LoadAnswersLikeTheTables` | src/django_waf/services/rule_engine.py:152-266 | a request answered from a load at any later time gets, from each table, the columns of a row in force of least order among those that match, or nothing if there is none, of a committed state with every write bumped before the load began, however the database ordered equal priorities |
| `RuleCache.CommitAfterLastBumpIsMissed` | src/django_waf/handlers.py:68-87 | the bound is tight: for any writer history with commits after its last bump there is a run whose load at the current version misses them all |
| `RuleCache.LoadsNeverWait` | src/django_waf/services/rule_engine.py:170-197 | a worker inside a load always has a step of its own it can take, whoever holds the lock |
| `RuleCache.OwnStepsCount` | src/django_waf/services/rule_engine.py:152-266 | each of its own steps strictly lowers a bound of ten |
| `RuleCache.OthersDoNotSetBack` | src/django_waf/services/rule_engine.py:152-207 | no step of anyone else raises it |
| `RuleCache.LoadEnds` | src/django_waf/services/rule_engine.py:152-266 | in every run a worker that has read the version is out of the load by its tenth own step after that, whoever holds the lock |
| `RuleCache.LockTable` | src/django_waf/services/rule_engine.py:113-197 | a readable entry is returned and any other rebuilt; a free lock is taken, a held one waited for three times and then done without, as when Redis fails |
| `RuleCache.OneRebuildAtATime` | src/django_waf/services/rule_engine.py:152-207 | in every run, until the lock first expires, at most one worker rebuilds with the lock in its hand and the lock is taken meanwhile |
| `Verdicts.JudgedByTheTables` | src/django_waf/services/rule_engine.py:305-431 | in every run of the cache a request evaluated with a load is passed in the name of a least matching allow row in force, and otherwise, with no block entry standing, judged by the action of a least matching block row in force, of tables with every write bumped before the load began |
| `SlidingWindow.TouchRepresents` | src/django_waf/services/rate_limiter.py:294-317 | after the pipeline a key holds exactly its touches in (now - w, now], whether or not the key expired in between |
| `SlidingWindow.RetryAfterBounds` | src/django_waf/services/rate_limiter.py:34-56 | on a breach 1 <= retry_after <= w, the oldest counted event has left the window by now + retry_after + 1, and the advice is no longer than that event needs unless it is one second |
| `SlidingWindow.RetryCount` | src/django_waf/services/rate_limiter.py:298-317 | a retry with nothing in between is counted together with exactly the events of the breach, the refused one included, still in the window |
| `RateLimiter.ResolvePath` | src/django_waf/services/rate_limiter.py:136-153 | the loop finds the longest entry whose prefix begins the path and whose method scope, in any spelling, covers the request, and none iff there is none |
| `RateLimiter.ResolvedIsLongest` | src/django_waf/services/rate_limiter.py:59-153 | the same of the entry the limiter uses, for every setting, path and method |
| `RateLimiter.ResolutionIsUnique` | src/django_waf/services/rate_limiter.py:136-153 | that entry is determined by settings, path and method |
| `RateLimiter.ScopedEntryIsLocal` | src/django_waf/services/rate_limiter.py:59-82 | an entry added anywhere in the settings changes nothing for a request whose method it excludes |
| `RateLimiter.RateStore.Touch` | src/django_waf/services/rate_limiter.py:298-306 | one pipeline changes one key, and reports its size and oldest member |
| `RateLimiter.RateStore.CheckPathLimit` | src/django_waf/services/rate_limiter.py:85-180 | the path check touches the resolved entry's key or none |
| `RateLimiter.RateStore.CheckRateLimit` | src/django_waf/services/rate_limiter.py:241-319 | path check first, then the three windows with early return: the new keys and the answer |
| `RateLimiter.RateStore.CheckVerifyRateLimit` | src/django_waf/services/rate_limiter.py:183-238 | the solve-rate check: the new key and the answer |
| `RateLimiter.ContentIsWindow` | src/django_waf/services/rate_limiter.py:294-319 | in every run, what a touched key holds is exactly the times that reached its window in (now - w, now] |
| `RateLimiter.WindowsNest` | src/django_waf/services/rate_limiter.py:294-319 | early returns leave 5m within 1m within 1s |
| `RateLimiter.BucketBound` | src/django_waf/services/rate_limiter.py:298-317 | calls that left at most n members in a key number at most n in any window of its length |
| `RateLimiter.AdmissionBound` | src/django_waf/services/rate_limiter.py:294-319 | in every run, for every address and every t, at most `burst` requests are admitted in the second up to t, `per_minute` in the minute and `per_5min` in the five minutes |
| `RateLimiter.PathAdmissionBound` | src/django_waf/services/rate_limiter.py:163-180 | the same per address and matched path entry |
| `RateLimiter.VerifyAdmissionBound` | src/django_waf/services/rate_limiter.py:219-238 | the same for solve posts |
| `RateLimiter.SameTimeCollapses` | src/django_waf/services/rate_limiter.py:298-306 | without a strict clock the bound on calls fails: two posts at one time are one member |
| `RateLimiter.AdviceIsInRange` | src/django_waf/services/rate_limiter.py:34-56 | in every run a refusal's advice lies in 1..w of the window refused for and is what the oldest counted event needs, to the second |
| `RateLimiter.RetryVerdict` | src/django_waf/services/rate_limiter.py:298-317 | on any key a retry passes iff fewer than the limit of the events counted at the breach are still in the window |
| `RateLimiter.RetryPassesIff` | src/django_waf/services/rate_limiter.py:219-238 | in every run the next solve post after post n passes iff fewer than the limit of the posts up to n, refused ones included, are still in the window |
| `RateLimiter.RequestPassesIff` | src/django_waf/services/rate_limiter.py:241-319 | in every run a request passes iff its path entry, if any, has at most its limit of touches in its window and at most `burst` fall in the last second, `per_minute` in the last 60 and `per_5min` in the last 300, its own among them |
| `RateLimiter.ChecksInOrder` | src/django_waf/services/rate_limiter.py:241-319 | a request is recorded under its path entry first; refused there, nowhere else; refused by a window, in that one and the shorter ones, which had room; passed, in all three; and for no other address |
| `RateLimiter.RetryAfterCanFail` | src/django_waf/services/rate_limiter.py:34-56 | a run in which a client that waits exactly as told is refused again |
| `RateLimiter.RequestRetryCanFail` | src/django_waf/services/rate_limiter.py:294-319 | a run in which a request refused by the minute window waits as told and is refused again |
| `RateLimiter.RunExists` | src/django_waf/services/rate_limiter.py:241-319 | every sequence of calls under a clock has a run |
| `HitCounter.HitStore.RecordHit` | src/django_waf/services/rule_engine.py:576-596 | one more pending hit for one rule |
| `HitCounter.HitStore.Flush` | src/django_waf/tasks.py:815-880 | every readable counter is cleared and added to its row if the row exists and can be written, and the tallies count exactly those; inside a transaction it is broken iff some write failed, and nothing is flushed if the keys cannot be listed |
| `HitCounter.FlushConserves` | src/django_waf/tasks.py:826-875 | row plus counter of a live rule is unchanged by a flush, except that a failed write loses exactly its counter |
| `HitCounter.HitStore.SnapshotOthers` | src/django_waf/services/flush_probe.py:290-324 | the snapshot holds every counter that could be read but the probe's, and nothing if the keys could not be listed |
| `HitCounter.HitStore.ReconcileOthers` | src/django_waf/services/flush_probe.py:338-383 | every snapshotted counter is put back over what the flush left, but those whose write fails |
| `HitCounter.HitStore.Probe` | src/django_waf/services/flush_probe.py:187-262 | every row is as before whatever fails; the counters are those not taken or put back; it raises iff the flush failed to write some row, anyone's, and otherwise reports alive iff its own hit was recorded, flushed and seen to be gone |
| `HitCounter.ProbeRestores` | src/django_waf/services/flush_probe.py:338-383 | flush, deletion and putting back leave exactly the counters not taken or put back |
| `HitCounter.ProbeIsHarmlessIff` | src/django_waf/services/flush_probe.py:290-383 | the probe leaves the counters unchanged iff every counter the flush took was put back and its own is gone; with no snapshot, restore or cleanup fault it always does; lost counters are lost whole and none is invented |
| `HitRaces.RunKeepsInv` | src/django_waf/tasks.py:826-875 | the accounts of every rule balance in every state of every interleaving |
| `HitRaces.HitsAreConserved` | src/django_waf/services/flush_probe.py:187-225 | when no task runs, row plus counter never exceeds the recorded hits and falls short by at most those that landed inside a probe or between a GET and its DEL |
| `Detectors.MergeIsUnion` | src/django_waf/services/anomaly_detector.py:1847-1860 | the parsed set after a merge is the old set plus the name, for every stored value |
| `Detectors.MergePlain` | src/django_waf/services/anomaly_detector.py:1847-1860 | and the promotion's own membership test finds exactly that set |
| `Detectors.MergeOrderIsFree` | src/django_waf/services/anomaly_detector.py:1847-1860 | the stored text does not depend on who wrote first or how often |
| `Detectors.MergeCanonical` | src/django_waf/services/anomaly_detector.py:1847-1860 | a merged value is the sorted, repetition-free join of its names |
| `Text.BeforeIsLexicographic` | src/django_waf/services/anomaly_detector.py:1847-1860 | the order names are stored in is by code point at the first difference, a prefix first |
| `AutoRules.RunKeepsInv` | src/django_waf/services/anomaly_detector.py:1863-1975 | the invariant of the concurrent upsert holds in every reachable state: unique keys, one lock holder a row, and what a worker derived is still what its row says |
| `AutoRules.ReachableStates` | src/django_waf/models.py:325-329 | at most one auto row a key; PENDING is AUTO and inactive; CONFIRMED is ADMIN, active and non-expiring; REJECTED is inactive; every stamped subnet row is of a subnet whose CHALLENGE row the detector has written |
| `AutoRules.StampHasCrossing` | src/django_waf/services/anomaly_detector.py:707-791 | behind every stamped subnet row, BLOCK or CHALLENGE, there is an earlier crossing step for that subnet whose worker then wrote the subnet's stamped CHALLENGE row |
| `AutoRules.StepKeepsDecision` | src/django_waf/services/anomaly_detector.py:1936-1975 | on the ordinary and on the lost-insert path, stale writes to other rows included, a decided row keeps review and activity, and the detector set gains exactly the writer |
| `AutoRules.DetectorWrites` | src/django_waf/services/anomaly_detector.py:1795-1812 | the columns a detector write leaves, by insert, update or stale write: key, match type, expiry and confidence of the request, activity and review of a new row unless a decision is kept; and no other row changes |
| `AutoRules.LoserMerges` | src/django_waf/services/anomaly_detector.py:1901-1933 | after a lost insert the loser's second read and write leave the winning row with its decision and exactly one more detector |
| `AutoRules.VanishedWinnerIsAnError` | src/django_waf/services/anomaly_detector.py:1919-1928 | if the winning row is gone when the loser looks again, the call ends and nothing is written |
| `AutoRules.DecisionsStand` | src/django_waf/services/anomaly_detector.py:1901-1933 | over any run, while the operator is away, a decision stands iff neither a stale write nor a delete hits its row; while it does, review and activity are as left and no detector is lost |
| `AutoRules.ConfirmStands` | src/django_waf/views.py:680-699 | from the confirmation on, while the operator is away and it is not deleted, the row is CONFIRMED, active, ADMIN and non-expiring with every other column as it was; no detector, sweep or prune touches it |
| `AutoRules.ConfirmedIsNeverDeleted` | src/django_waf/views.py:680-699 | unless a prune had selected it before, a confirmed row is never selected or deleted |
| `AutoRules.RejectStands` | src/django_waf/views.py:727-731 | from the reject on, while the operator is away and neither loss hits the row, it is REJECTED and inactive, of the same key, loses no detector and is never selected by a prune |
| `AutoRules.ConfirmFreesKey` | src/django_waf/services/anomaly_detector.py:1863-1906 | a confirmed row has left the auto key: whoever asks for it next reads no row |
| `AutoRules.DetectionAfterConfirm` | src/django_waf/services/anomaly_detector.py:1863-1906 | after a confirmation the next detection of the same thing inserts a second, auto row beside the confirmed one |
| `AutoRules.SafeDecisionsStand` | src/django_waf/services/anomaly_detector.py:1936-1975 | from a state with no worker about to write the row unseen and no prune that has selected it, the decision stands in every run |
| `AutoRules.RiskyDecisionsCanBeLost` | src/django_waf/services/anomaly_detector.py:1901-1906 | from every state in which such a worker or prune exists some continuation without the operator loses the decision |
| `AutoRules.StaleWriteUndoesReject` | src/django_waf/services/anomaly_detector.py:1901-1906 | a run of two detectors and one reject that ends with the rejected rule active and unreviewed |
| `AutoRules.PruneTakesReject` | src/django_waf/tasks.py:480-492 | for every retention period, a run in which a rule is inserted before its expiry and expires, a prune selects it, the operator rejects it and the prune deletes it |
| `AutoRules.SecondCrossingBlocks` | src/django_waf/services/anomaly_detector.py:707-791 | whatever other detectors wrote in between, what a second crossing's worker writes while the stamped row is still active, by update, insert or stale write, is the subnet's BLOCK row with the detector's stamp |
| `AutoRules.CrossingAsksIff` | src/django_waf/services/anomaly_detector.py:707-791 | a crossing asks for BLOCK iff the table has an active auto CHALLENGE row of the subnet with the stamp, and for CHALLENGE otherwise |
| `AutoRules.PruneSparesDecisions` | src/django_waf/models.py:97-137 | every deleted row was selected earlier, then inactive, AUTO, neither PENDING, CONFIRMED nor REJECTED, and past its expiry by more than the days asked for, and is deleted as selected unless somebody wrote to it in between |
| `AutoRules.SweepSettles` | src/django_waf/tasks.py:384-392 | after the sweep no row is active and expired or pending past expiry, and unexpired rows are untouched |
| `AutoRules.SweepLeaves` | src/django_waf/tasks.py:384-392 | the two updates leave an unexpired row as it was, deactivate an expired one, mark it never reviewed if it was an auto row still pending, and change no other column |
| `AutoRules.StaleUpdateLosesExactly` | src/django_waf/services/anomaly_detector.py:1901-1906 | a write derived before its row existed keeps the detectors iff the row had no other, keeps review and activity iff they were what a new row gets, and always loses a decision |
| `SubnetCrossing.Aggregate` | src/django_waf/services/anomaly_detector.py:689-704 | the two dictionaries hold each subnet's challenge total and set of addresses |
| `SubnetCrossing.CrossingSubnets` | src/django_waf/services/anomaly_detector.py:689-718 | a subnet is selected iff enough challenges came from enough addresses, none of which solved one |
| `Escalation.EscalationStore.UnsolvedCount` | src/django_waf/services/rule_engine.py:922-980 | the live count, zero and cleared for a solved non-bot address |
| `Escalation.EscalationStore.GateOrEscalate` | src/django_waf/services/rule_engine.py:861-919 | challenge below the threshold, block entry and BLOCKED from it on |
| `Escalation.EscalationStore.EvaluateRequest` | src/django_waf/services/rule_engine.py:305-491 | the order of the checks, with the gate before each of the three challenge sources |
| `Escalation.EscalationStore.HandleVerdict` | src/django_waf/middleware.py:662-745 | the block record, the redirect counter with its TTL and the suppressed redirect |
| `Escalation.EscalationStore.ServeRequest` | src/django_waf/middleware.py:662-745 | one request is one event of a run |
| `Escalation.EscalationStore.MarkSolved` | src/django_waf/views.py:308-320 | the flag is set and the counter deleted |
| `Escalation.SolveLeaves` | src/django_waf/views.py:308-320 | a solve sets the address's flag for 86400 s, deletes its counter and touches nothing else |
| `Escalation.OthersUntouched` | src/django_waf/middleware.py:662-745 | serving a request changes nothing kept for another address |
| `Escalation.VerdictTable` | src/django_waf/services/rule_engine.py:305-491 | the verdict and rule for every request: allow rule, standing block entry, block rule by its action, rate limit, missing referer, score, with the count deciding each challenge |
| `Escalation.ResponseTable` | src/django_waf/middleware.py:662-745 | the answer to each verdict and what it records: a block for 300 s with its rule, a redirect one more for 3600 s, nothing else |
| `Escalation.BlockStands` | src/django_waf/services/rule_engine.py:374-404 | in every run, for 300 seconds after a Forbidden answer every request of the address is Forbidden whatever its facts, unless an allow rule matches it, and then it is served |
| `Escalation.BlockRollsOn` | src/django_waf/middleware.py:667-684 | an address that no allow rule matches and that is never away for 300 seconds is Forbidden for ever after its first block |
| `Escalation.StretchIsCounted` | src/django_waf/middleware.py:720-739 | over any unbroken stretch the counter is at least the redirects, which number at most the threshold |
| `Escalation.StretchIsCountedExactly` | src/django_waf/middleware.py:720-739 | if no older counter is alive the counter is exactly the redirects and lapses an hour after the last |
| `Escalation.EscalationBound` | src/django_waf/services/rule_engine.py:861-919 | in every run an unbroken stretch has at most `threshold` redirects, after which every would-be challenge from any source is blocked |
| `Escalation.SolvedIsNotEscalated` | src/django_waf/services/rule_engine.py:922-980 | in every run, for a day after a solve, no non-bot request of the address writes a block entry at the gate, and a would-be challenge is a challenge unless an entry stands |
| `Escalation.SolveResets` | src/django_waf/views.py:312-315 | in every unbroken stretch after a solve, that is while only bots come or once the flag has lapsed, the counter is exactly the redirects since the solve |
| `Escalation.FlagRestartsCount` | src/django_waf/services/rule_engine.py:922-980 | within the flag's day every non-bot redirect leaves the counter at exactly one, lapsing an hour later |
| `Escalation.CountAfterSolve` | src/django_waf/services/rule_engine.py:922-980 | within the flag's day any redirect leaves the counter at one for a non-bot and at one more than was live for a bot |
| `Escalation.EscalatesIff` | src/django_waf/services/rule_engine.py:902-919 | in a run, after an unbroken stretch that starts at zero, a would-be challenge is blocked iff the stretch has had `threshold` redirects |
| `Escalation.EscalationEntryIsOverwritten` | src/django_waf/middleware.py:667-684 | the entry an escalation writes is replaced by one with the ordinary TTL and no rule |
| `EscalationRaces.RaceBound` | src/django_waf/services/rule_engine.py:861-980 | however reads and increments interleave, an address with at most n requests in flight is redirected at most threshold + n - 1 times in an unbroken stretch |
| `EscalationRaces.RaceBoundIsMet` | src/django_waf/middleware.py:720-739 | for every threshold and set of workers there is an unbroken run with threshold + workers - 1 redirects |
| `Feed.FeedStore.Sync` | src/django_waf/services/threat_feed.py:177-366 | each table ends as a function of itself and the feed alone, so neither affects the other; created + updated + skipped is the entry count; created is the growth of the tables; expired counts the rows turned off |
| `Feed.Deactivate` | src/django_waf/services/threat_feed.py:349-364 | exactly the active feed rows whose key was not seen are turned off and counted |
| `Feed.SyncReconciles` | src/django_waf/services/threat_feed.py:181-364 | old rows keep their place and end as the feed's last accepted word on their key says; other sources' rows are untouched; unnamed feed rows end inactive; each named key has a row, a created one saying what that last word says; keys stay unique |
| `Feed.SyncedRowsAreVetted` | src/django_waf/services/threat_feed.py:181-347 | every feed row after a sync is inactive and unnamed, or says what the last vetted entry for its key says: its match type, confidence within the limits, action, expiry or thirty days, and reverse DNS always demanded of an allow rule |
| `Feed.CreatedRowsArePlain` | src/django_waf/services/threat_feed.py:300-347 | a created row has default priority, no review state and no reporters but those counted, and is active iff it blocks or quarantine is off |
| `Feed.BlocksActiveIffNamed` | src/django_waf/services/threat_feed.py:300-356 | after a sync a feed block rule is active iff an accepted entry names its key |
| `Feed.AllowsStayQuarantined` | src/django_waf/services/threat_feed.py:243-297 | under quarantine an allow rule is active after a sync iff it was active before and, if the feed's, is still named; without it, iff named |
| `Feed.SyncIsIdempotent` | src/django_waf/services/threat_feed.py:181-364 | a second sync of the same feed at the same time creates and expires nothing and leaves every row equal |
| `LeadingZeros.ZeroBitsAreABound` | src/django_waf/services/challenge_service.py:112-125 | the divmod-and-mask test is true iff bits <= 8 * len and the big-endian value is below 2^(8 * len - bits) |
| `LeadingZeros.EasierIsImplied` | src/django_waf/services/challenge_service.py:112-125 | acceptance at one difficulty implies it at every smaller one |
| `ChallengeTokens.TokenStore.IssueChallenge` | src/django_waf/services/challenge_service.py:128-165 | a pending row and its copy, or nothing for a token already used |
| `ChallengeTokens.TokenStore.VerifySolution` | src/django_waf/services/challenge_service.py:211-287 | the outcome and the new row and copy, with the copy's address and difficulty and the row's status and expiry; an unreadable copy falls through to the row, one whose difficulty is no integer raises |
| `ChallengeTokens.TokenStore.PruneTokens` | src/django_waf/tasks.py:336-342 | exactly the PENDING and FAILED rows past the cutoff go, and are counted |
| `ChallengeTokens.CopyIsInvisible` | src/django_waf/services/challenge_service.py:211-243 | in every run verification ends, and leaves the rows, as it would with no Redis at all, and a live copy has its row; it raises, changing nothing, iff the copy holds a difficulty that is no integer |
| `ChallengeTokens.LateCopyLosesItsRow` | src/django_waf/services/challenge_service.py:145-164 | for every stall longer than the prune age there is a run in which it does not |
| `ChallengeTokens.TerminalStays` | src/django_waf/services/challenge_service.py:245-281 | SOLVED, FAILED and EXPIRED rows are never changed; only a FAILED one can be pruned |
| `ChallengeTokens.PassesOnce` | src/django_waf/services/challenge_service.py:273-281 | no token passes twice in any sequential run |
| `ChallengeTokens.PassMeansWork` | src/django_waf/services/challenge_service.py:245-281 | a pass proves an earlier issue of the token to the same address within its lifetime, and a digest below the bound of the issued difficulty |
| `ChallengeTokens.WorkPasses` | src/django_waf/services/challenge_service.py:211-287 | a verification passes iff the copy does not raise and the row is pending, unexpired, of this address and the work is done |
| `ChallengeTokens.OutcomeTable` | src/django_waf/services/challenge_service.py:245-287 | how each verification ends and what it leaves: EXPIRED when late, FAILED on a wrong nonce, SOLVED with time and nonce and no copy on the right one, and no other row or copy changed |
| `ChallengeTokens.OneTry` | src/django_waf/services/challenge_service.py:245-281 | in every run, after a wrong nonce, a late try or a pass no later verification of the token passes, unless it is issued anew |
| `TokenRaces.PassesOverlap` | src/django_waf/services/challenge_service.py:211-281 | if a token passes twice without being issued anew, the second verification had read the row before the first saved it |
| `TokenRaces.PassesAgainIff` | src/django_waf/services/challenge_service.py:211-281 | after a pass, the next verdict another worker saves is a pass on that token iff it was held already when the first was saved |
| `TokenRaces.HoldersBothPass` | src/django_waf/services/challenge_service.py:245-281 | from any state in which two workers hold a pass and the row exists, both passes are saved |
| `TokenRaces.BothPass` | src/django_waf/services/challenge_service.py:211-281 | for every difficulty and every nonce that solves it there is a run in which two workers pass on one token |
| `PassCookie.RoundTrip` | src/django_waf/services/challenge_service.py:318-403 | an issued cookie is accepted iff neither token nor address holds the delimiter, the expiry has not passed and the normalised addresses agree |
| `PassCookie.AcceptedValues` | src/django_waf/services/challenge_service.py:380-403 | a value is accepted iff it is a signed four-field prefix for this address, unexpired, and its fields are the only ones it can be read as |
| `PassCookie.FieldsAreUnique` | src/django_waf/services/challenge_service.py:343-345 | four delimiter-free fields are recovered from their join |
| `Decimals.ParsesPrinted` | src/django_waf/services/challenge_service.py:343-394 | `int(str(n))` is n |
| `ClientIp.TrustedPeerResolution` | src/django_waf/services/client_ip.py:52-83 | behind a trusted peer the answer is the rightmost valid untrusted hop, and the peer iff there is none |
| `ClientIp.ResolvedAddress` | src/django_waf/services/client_ip.py:52-143 | the answer for every peer, header and setting: the rightmost hop outside every range behind a believed peer, else the peer, except that the legacy setting takes a first hop that is an address |
| `ClientIp.HeaderIsIgnored` | src/django_waf/services/client_ip.py:85-99 | with an unbelieved peer and the legacy setting off the answer is the peer, whatever the header says |
| `ClientIp.SuffixDecides` | src/django_waf/services/client_ip.py:102-121 | if the header's tail names a client, nothing prepended with a comma changes the answer; otherwise the front decides |
| `ClientIp.SpoofedHopsAreIgnored` | src/django_waf/services/client_ip.py:102-143 | whatever a client sends, the address its first trusted proxy appended is the answer, through any number of trusted proxies |
| `ClientIp.LeftmostDecides` | src/django_waf/services/client_ip.py:85-99 | the legacy setting depends on the first hop alone |
| `LogIngest.ReadLines` | src/django_waf/tasks.py:209-257 | the loop yields the records of the well-formed lines, and parsed = records + skipped |
| `LogIngest.Ingester.ParseAccessLog` | src/django_waf/tasks.py:154-270 | reads from the offset, from the top when it is lost or beyond the file; inserts without repeating an id; stores the file's length |
| `LogIngest.LinesConcat` | src/django_waf/tasks.py:209-212 | appending to whole lines appends to the lines |
| `LogIngest.LineIsStoredAs` | src/django_waf/tasks.py:209-257 | a line is stored iff the format matches, the address is valid and the status is at most 32767, with method, path and agent cut to 16, 2048 and 1024 |
| `LogIngest.SameEventIff` | src/django_waf/tasks.py:985-994 | for an injective hash and no bar in address, timestamp or method, two events have one id iff address, timestamp, method, path and status agree |
| `LogIngest.BarsConfuseEvents` | src/django_waf/tasks.py:985-994 | with a bar in timestamp or method two different events can have one id, whatever the hash |
| `LogIngest.InsertedIds` | src/django_waf/models.py:661-665 | an insert that ignores conflicts adds exactly the records' ids, each once |
| `LogIngest.IngestedExactly` | src/django_waf/tasks.py:154-270 | in every run in which no rotation is hidden, that is the file is shorter than the offset whenever a run follows a rotation, the stored ids are at every moment exactly those of well-formed lines some run found in the file, each once |
| `LogIngest.StoredIsRead` | src/django_waf/tasks.py:154-270 | in every run, hidden rotations included, the stored ids are exactly those of the lines some run read, each once |
| `LogIngest.AppendOnlyIsExact` | src/django_waf/tasks.py:985-994 | on an append-only log, after each run the stored ids are exactly those of the well-formed lines in the file, however often the offset was evicted |
| `LogIngest.HiddenRotationLoses` | src/django_waf/tasks.py:197-207 | for any two files, the second no shorter, and any well-formed line of the second that the first lacks and that does not stand whole after its length, a run of append, task, rotation, task in which that line is in the file and never stored |
| `LogIngest.HiddenRotationInvents` | src/django_waf/tasks.py:197-212 | for a fragment that reads as a line of an id neither file has, the same run stores that id although no run found it |
| `LogIngest.HiddenRotationIsHarmlessIff` | src/django_waf/tasks.py:197-212 | whatever file the offset was of, a run leaves the file ingested iff every well-formed line of it was stored already or is among the lines read, and stores nothing foreign to it iff every well-formed line read is in it or was stored already |
| `LogIngest.LinesFromMiddle` | src/django_waf/tasks.py:209-212 | reading from a position yields the lines after the one it is in, preceded by that line from the position on |
| `LogIngest.OnlyTheFragmentIsInvented` | src/django_waf/tasks.py:209-212 | what such a run stores that is not in the file is the id of the one fragment it started with |
| `LogIngest.OnlyEarlierLinesAreLost` | src/django_waf/tasks.py:209-212 | what such a run misses stood in a line that ended before its start or in the line it started inside |

## Left out

- Django's own retry inside `update_or_create`: it appears only as the one stale write it allows, `AutoRules.StaleUpdate`.
- `_deduplicate_block_rules`: the unique constraint makes its branch unreachable, and `AutoRules.ReachableStates` proves that constraint kept.
- Dry runs, evidence notes, rule names and timestamps of rows: columns no modelled decision reads.
- A second flush overlapping a flush or a probe, and the two-day TTL of a hit counter.
- `HitCounter.HitStore.Probe`: the rule id is new to rows and counters, as a fresh UUID is; failing to reach Redis at all or to create the probe's row is not modelled.
- `HitRaces.HitsAreConserved`: no command fails; faults are in `HitCounter`.
- Several threads sharing one process's rule-cache globals; eviction of the version key.
- Hashing of a path prefix into its Redis key: the prefix is the key, so two prefixes never collide.
- Times in `SlidingWindow` are whole ticks of 2^-22 seconds, which is what `time.time()` returns between 2004 and 2038; rounding outside those years is not modelled.
- `RateLimiter.AdmissionBound`: counts calls under a strictly increasing clock and distinct times under any clock that does not go back.
- A feed confidence that is not a number, an expiry text that makes the date parser raise, and two syncs at once.
- `ChallengeTokens.CopyIsInvisible`: calls are sequential; `TokenRaces` has the concurrent ones, with the reads of Redis and of the row as one step.
- `EscalationRaces.RaceBound`: the increment and the TTL it sets are one step.
- `RuleEvaluation.CachedIsDirect`: reads rows of equal order alike in both queries; `RuleEvaluation.CachedIsDirectUpToTies` is the form for a database free to choose, and the one `RuleCache` uses.
- `RuleEvaluation.MaintenanceIsInvisible`: the same; `RuleEvaluation.CachedIsDirectUpToTies` covers sweeps and prunes with ties left open.
- Text beyond ASCII digits in `int()`, and decoding of log bytes before the line regex.
- A missing or unreadable log file and runs that find a line half written.
- Admin and API edits of rules, which can set any field.
- Rule matching itself, user-agent and fingerprint heuristics, GeoIP, reverse DNS, scoring: lists or libraries, taken as parameters.
- Form protection, blocklist files, site-password cookies, telemetry, dashboards, checks, signals and logging: short case splits or plumbing.
