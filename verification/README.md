# A verified model of the publishing, analytics and Agent API engines

This project models the engines of the application that hold its hardest guarantees, and proves them for every
input, every run or every interleaving. Database tables and the cache are maps, a query or an update is one atomic
step, times and days are integers, floats are reals. Code that works by changing things step by step is a method or
a class here, proved against a specification; the theorems are lemmas about that specification.

| file | what it models |
|---|---|
| `Attribution.dfy`, `Series.dfy`, `Metrics.dfy`, `Derivation.dfy` | lifetime snapshots turned into daily credits, the two series builders, the metrics derived from a series |
| `Idempotency.dfy` | the idempotency keys of the Agent API, as helpers and as a protocol of concurrent, crashing workers |
| `KeyCache.dfy`, `KeyStore.dfy`, `KeyProcesses.dfy`, `Tokens.dfy` | the API-key row cache of one process: raced step by step, and atomic against every edit; one such cache for each of several processes; the token format |
| `Slots.dfy`, `Queue.dfy`, `QueueOrder.dfy` | posting slots, the numbered queue, and the list it stands for |
| `Calendar.dfy`, `RecurrenceDates.dfy`, `Recurrence.dfy`, `Posts.dfy` | the calendar, recurrence dates, cloning, and a post's time |
| `Snapshots.dfy`, `Cadence.dfy`, `MetricFields.dfy`, `YoutubeBatch.dfy` | snapshot rows, the decay-by-age sync loop, and the second writer that must not disturb it |
| `Approvals.dfy`, `ApprovalRuns.dfy`, `PostStatus.dfy` | the editorial state machine, the approval services over whole runs, the aggregate status |
| `Throttle.dfy`, `ThrottleRaces.dfy`, `QuotaMessage.dfy`, `Utf8.dfy`, `Facets.dfy` | the failed-login budget for one request at a time and for overlapping ones, the 429 message, and byte offsets into UTF-8 (section 3 of RFC 3629) |

Main results:

* Attribution conserves credit, post by post and day by day; the grouped single pass computes the per-post
  specification, the bulk builder and the per-metric builder return one list, and two adjacent periods lose nothing.
* In every interleaving whose sweeps are timely an idempotency slot has one live owner, and a replay is what that owner
  finalized. Two claims of one slot at most 24 hours apart mean that the earlier was released while pending; such a
  release lets the next claim in at once, and work that was already done is then done again. A sweep is safe if and only
  if no live claim is older than 24 hours.
* With one row cache for each process an edit keeps every cached scope equal to the table if and only if it strands
  nothing in the cache of its own process and touches no key cached in another; any process is behind by less than the
  TTL when a verification is one step. When it is not, a hit is bounded by the TTL plus its own fill's delay, and the
  plain TTL fails exactly when a fill is pending.
* The numbered queue refines a list over all runs of adds and of reorders without a collision; such a reorder orders the
  listed posts by their last index, and the others keep their order; slots are the first ones, in order, none skipped.
* Recurrence generation is idempotent, for any list of rules, when each source's date is that of its earliest child;
  for one rule, and any interval, it is so if and only if that holds or every coming date already has a post. One turn
  repeats a date if and only if its interval is 0 and its base date, still to come, has no other post.
* At most 79 fetches of a post that was published by its first fetch record something, and 79 is reached; the batch
  writer changes no decision.
* In a two-stage workspace an approved child of any run of creations, services and transitions has been approved twice
  since its submission or was moved by a transition; no run schedules anything past the gate, and a child gets into
  publication without ever having been approved exactly when it is published as a draft.
* With one request at a time and one counter at most 20 failed logins fall into any 60 seconds. When `k` requests
  overlap, however their cache calls interleave, it is at most twice `9 k + k (k + 1) / 2` for each counter; half of
  that is reached in a single second, 21 for two requests.
* The aggregate status is a greatest lower bound; the two wire formats round-trip; facet offsets cut out exactly the
  matched text.

Where the code and its own documentation disagree, the model follows the code:

* `apps/analytics/services.py:108` names `profile_visits` among the metrics without a fallback; the code computes one.
* `apps/composer/status.py:38` says that a failed child beside an unfinished one gives `publishing`; lines 59-67
  return the lowest status.
* `apps/api_keys/services.py:218-222` and `:271` say that stale revocations last no longer than the TTL; they do outlive
  it exactly when a fill is pending that read the row before (`KeyCache.HitsOutliveTheTtlIff`,
  `KeyCache.AcceptancesOutliveTheTtlIff`; `KeyCache.RevocationCanOutliveTheTtl` is such a case).
* `apps/api/limits.py:314` calls the window rolling; it is anchored at its first failure (`Throttle.TwentyIsReached`).
  Lines 322-325 say that later failures do not touch its end; a re-seeding request does, also when there is a counter
  again (`ThrottleRaces.OnlyReseedsMoveTheEnd`).
* `apps/analytics/freshness.py:78` says that the reported time cannot drift from the loop; the loop may fetch earlier.
  `Cadence.EtaIsALowerBoundIff` says exactly when it does not. Without excluded metrics that is when some row exists;
  `Cadence.AnExcludedRowDelaysTheEta` is a video that is due before its reported time.

## Model

| member | source | states |
|---|---|---|
| Attribution.PostSummedSeries | apps/analytics/services.py:181-224 | the one grouped pass over ordered rows gives every day the sum of the per-post credits, credits only days of the window, and returns the latest capture time |
| Attribution.CreditFirst | apps/analytics/services.py:194-218 | a post's first row is credited to its day, only anchored, or spread over the days since publication |
| Attribution.SpreadUniformly | apps/analytics/services.py:206-216 | the inner loop gives every day from publication to the snapshot an equal share and no other day anything |
| Attribution.CreditRise | apps/analytics/services.py:219-223 | a later row credits its day with what it adds to the high-water mark; a counter reset credits nothing and keeps the mark |
| Attribution.LatestCaptureIsTheMaximum | apps/analytics/services.py:192-193 | the returned capture time is the largest of the rows', or missing if no row has one |
| Attribution.GroupsAreContiguous | apps/analytics/services.py:187-190 | in ordered rows a post that differs from the previous row's is new, so resetting per group is sound |
| Attribution.NextRow | apps/analytics/services.py:187-223 | one more row changes only its own post's credit: by the first credit or by its rise |
| Attribution.NothingOutsideTheWindow | apps/analytics/services.py:199-223 | no day outside the rows' window is ever credited |
| Attribution.FirstCreditIsConserved | apps/analytics/services.py:195-218 | the credits of a first row add up to its value, less the value that predates the window |
| Attribution.RunningCreditIsTheHighWaterMark | apps/analytics/services.py:195-223 | up to each observed day a post has been credited the running maximum of its snapshots, less its anchor |
| Attribution.PostCreditIsConserved | apps/analytics/services.py:195-223 | over the window a post is credited its peak, less its first value if it was published before the window |
| Attribution.AttributionIsConserved | apps/analytics/services.py:181-224 | the credits of all days add up to what all posts earned |
| Series.SeriesFor | apps/analytics/services.py:77-102 | the per-metric builder returns `2 * days` values: the account rows, or the attributed credits when there are none and the metric allows it, or zeros |
| Series.IndexByDay | apps/analytics/services.py:95 | the dict holds exactly the days and values of the metric's rows |
| Series.AccountBundle | apps/analytics/services.py:241-291 | the bulk builder returns the same kind of series for exactly the platform's metrics, and the latest capture time of the rows it read |
| Series.CollectAccountRows | apps/analytics/services.py:257-272 | the bulk pass over account rows: a dict per metric, which metrics have rows, the latest capture time |
| Series.FillFromPosts | apps/analytics/services.py:280-286 | the fallback loop fills exactly the metrics without account rows that allow it |
| Series.PostQueryIsOrdered | apps/analytics/services.py:164-180 | the post query hands the pass ordered rows inside the window |
| Series.BuildersAgree | apps/analytics/services.py:77-102 | for one end date the bulk builder's list for a metric is the per-metric builder's |
| Series.PeriodsConserveTheCredits | apps/analytics/derive.py:27-58 | for a fallback count metric the current and previous values of `derive` add up to everything the posts earned |
| Derivation.WindowsPartitionTheSeries | apps/analytics/derive.py:27-35 | the two windows of a full series partition it: no day dropped or seen twice |
| Derivation.DenominatorIsAKey | apps/analytics/derive.py:77 | the denominator is the first candidate present, and missing only if none is |
| Derivation.MediantBounds | apps/analytics/derive.py:99-110 | a quotient of totals lies between two of the daily quotients |
| Derivation.RateLiesWithinItsSparkline | apps/analytics/derive.py:76-119 | the rate before rounding lies between the least and greatest day of its sparkline, for any number of days and parts, when the denominator it uses is positive on each of those days |
| Idempotency.Ledger.Claim | apps/api/middleware.py:136-188 | claims a free slot, or answers from the row: mismatch, in flight, or replay; no key passes through |
| Idempotency.Ledger.Finalize | apps/api/middleware.py:191-209 | promotes the row that is there, keeping its fingerprint and age |
| Idempotency.Ledger.Release | apps/api/middleware.py:212-230 | deletes the row only while it is pending |
| Idempotency.Ledger.Sweep | apps/api/tasks.py:34-55 | deletes exactly the rows older than 24 hours, whatever their status |
| Idempotency.FingerprintNeverChanges | apps/api/middleware.py:198-209 | in any run a row that is still there has kept its fingerprint and its age |
| Idempotency.AtMostOneLiveOwner | apps/api/middleware.py:149-176 | two live workers never hold one slot |
| Idempotency.OwnerStep | apps/api/middleware.py:167-230 | a step of anyone leaves every live owner holding its own row |
| Idempotency.InvStep | apps/api/middleware.py:136-230 | every step, and a sweep if it is timely, keeps the protocol's invariant |
| Idempotency.TimelyRunsAreSafe | apps/api/middleware.py:136-230 | the invariant holds after every interleaving of claims, reads, finalizations, releases and crashes whose sweeps are timely |
| Idempotency.OneOwnerPerSlot | apps/api/middleware.py:149-157 | a slot has one live owner, and until it finalizes everyone else is told in flight or mismatch |
| Idempotency.ReplayIsWhatTheOwnerFinalized | apps/api/middleware.py:154-155 | every replay is what an owner finalized for the same slot and fingerprint |
| Idempotency.ClaimsAreADayApartUnlessReleased | apps/api/middleware.py:212-230 | over every timely run two claims of one slot at most 24 hours apart mean that the earlier was released while pending, and what was released was never finalized |
| Idempotency.FinalizedClaimsAreADayApart | apps/api/tasks.py:46-48 | a claim after a finalized one of the same slot is more than 24 hours younger |
| Idempotency.SlotIsFreeIffReleased | apps/api/middleware.py:212-230 | up to 24 hours after its latest claim a slot can be claimed again if and only if that claim was released |
| Idempotency.ReleaseLetsTheNextClaimIn | apps/api/routers/posts.py:254-265 | a pending claim can be released whatever its request has already committed, and the next request then owns the slot at once |
| Idempotency.WorkIsRepeatedOnlyAfterARelease | apps/api/routers/posts.py:225-266 | over every timely run the work of a slot is committed again only after the earlier claim was released or more than 24 hours after that claim, and never twice by one claim |
| Idempotency.ReleasedWorkIsDoneAgain | apps/api/routers/posts.py:225-266 | from any reachable state in which a request has committed its work but not finalized, its release and a retry commit that work again in the same second |
| Idempotency.ReleasedWorkIsDoneAgainAtOnce | apps/api/routers/posts.py:225-266 | a run from the start, without any sweep, in which that happens |
| Idempotency.SlowWorkIsDoneAgainASecondLater | apps/api/tasks.py:41-53 | a timely run without a release in which work that took 24 hours is done again a second later, since the age counts from the claim |
| Idempotency.SweepIsSafeIffTimely | apps/api/tasks.py:41-48 | a sweep keeps the invariant if and only if no live claim is older than 24 hours |
| Idempotency.UntimelySweepBreaksTheProtocol | apps/api/tasks.py:52-53 | a run with a late sweep in which two workers own one slot |
| Idempotency.AbandonedClaimStaysLocked | apps/api/middleware.py:219-222 | a crashed claim stays in flight through every run without a sweep |
| Idempotency.AbandonedClaimBecomesClaimable | apps/api/tasks.py:41-53 | after waiting and sweeping, a new request gets the slot if and only if the row was more than 24 hours old |
| KeyCache.ActingVerifier | apps/api_keys/services.py:257-309 | each step of a verifier leaves it holding an image the table really had |
| KeyCache.InvStep | apps/api_keys/services.py:257-309 | every step of every verifier and writer keeps cache and verifiers truthful |
| KeyCache.HitIsRecent | apps/api_keys/services.py:271-288 | in every run a hit uses an image read less than the TTL plus its fill's read-to-set delay earlier |
| KeyCache.AcceptedIsAuthorized | apps/api_keys/services.py:290-329 | an accepted token has the hash of the row image it used, which the table held when it was read; that image was active, and its issuer a member, when those were checked |
| KeyCache.RevocationReachesEveryone | apps/api_keys/services.py:215-245 | how long a revoked key can still be accepted, with the plain TTL for fills that do not straddle the revocation |
| KeyCache.HitsOutliveTheTtlIff | apps/api_keys/services.py:271-288 | from a state in which a key is revoked, some run in which it stays so takes it from the cache a full TTL later if and only if a fill is pending that has tested its row active, or has read a row that is active now |
| KeyCache.AcceptancesOutliveTheTtlIff | apps/api_keys/services.py:271-309 | and some such run accepts it if and only if a fill is pending whose row has an issuer and is still active a TTL later |
| KeyCache.RevocationCanOutliveTheTtl | apps/api_keys/services.py:271-288 | a reachable state, right after a revocation and its invalidation, from which the key is still accepted a full TTL later |
| KeyStore.KeyTable.VerifyToken | apps/api_keys/services.py:257-309 | with a coherent cache the answer is the table's, the scope is the current one, and the cache stays coherent |
| KeyStore.KeyTable.RevokeKey | apps/api_keys/services.py:215-226 | revokes once, keeps an earlier revocation time, and always drops the cached row |
| KeyStore.KeyTable.SaveKey | apps/api_keys/signals.py:89-101 | a saved row's cached image is dropped |
| KeyStore.KeyTable.InvalidateKeys | apps/api_keys/signals.py:66-67 | drops the cached rows of exactly the listed keys that exist |
| KeyStore.KeyTable.ForwardAdd | apps/api_keys/signals.py:54-57 | adding accounts to a key drops its cached row |
| KeyStore.KeyTable.ForwardRemove | apps/api_keys/signals.py:54-57 | removing accounts from a key drops its cached row |
| KeyStore.KeyTable.ForwardClear | apps/api_keys/signals.py:54-57 | clearing a key's allowlist drops its cached row |
| KeyStore.KeyTable.ReverseAdd | apps/api_keys/signals.py:60-68 | adding an account to keys drops the cached rows of the keys that were not linked before |
| KeyStore.KeyTable.ReverseRemove | apps/api_keys/signals.py:60-68 | removing an account from keys drops the rows named by the signal, since the relation is gone |
| KeyStore.KeyTable.ReverseClear | apps/api_keys/signals.py:70-86 | clearing an account's keys replays the ids stashed before, and leaves no stash |
| KeyStore.UnnotifiedScopesAreUnchanged | apps/api_keys/signals.py:31-101 | a key that no handler reaches has kept its row and its allowlist, unless a deletion cascaded to it |
| KeyStore.CascadesChangeTheScope | apps/social_accounts/views.py:724 | deleting an account, its workspace, a key's issuer or the key does change or remove that scope, and no handler runs |
| KeyStore.EditKeepsCoherence | apps/api_keys/signals.py:31-101 | an edit keeps every scope in the cache of its own process equal to the table if and only if it neither is a deletion that cascades to a cached key (the key, a listed account, the issuer, the workspace) nor changes a cached key's lookup |
| KeyStore.RunsStayCoherent | apps/api_keys/signals.py:31-101 | after every run of one process's edits and verifications that strands no entry every scope in its cache equals the table |
| KeyProcesses.TouchedScopesChange | apps/api_keys/signals.py:31-101 | what can be seen of an edit beforehand: exactly the keys it touches have another row, another allowlist or none afterwards |
| KeyProcesses.UntouchedCachesStayCurrentIff | config/settings/base.py:134-139 | a cache that no handler reaches stays equal to the table if and only if the edit touches no key cached in it |
| KeyProcesses.EditKeepsEveryCacheCurrentIff | config/settings/base.py:126-139 | with one cache for each process an edit keeps all of them equal to the table if and only if it strands nothing in its own process's and touches no key cached in another |
| KeyProcesses.ScopesAreStaleForLessThanTheTtl | apps/api_keys/services.py:218-222 | over every run of any number of processes, each edit and each verification one step, the scope a verification uses was in force no longer ago than the TTL: every older edit of any process is seen |
| KeyProcesses.RevocationReachesEveryProcess | apps/api_keys/services.py:218-222 | so a TTL after its revocation no process finds the key active |
| KeyProcesses.OtherProcessesKeepTheirEntries | config/settings/base.py:134-139 | and until then another process uses what it has cached, whatever the edit was |
| Tokens.ParseInvertsRender | apps/api_keys/services.py:93-120 | parsing inverts rendering, also when the secret contains underscores |
| Tokens.AcceptedTokenRendersToItself | apps/api_keys/services.py:93-120 | whatever is accepted renders back to itself |
| Tokens.AcceptedIffRendered | apps/api_keys/services.py:197-200 | the accepted tokens are exactly the renderings of secrets of 32 to 64 characters |
| Slots.NextSlotDatetimes | apps/calendar/services.py:42-76 | exactly the first `count` active slot times strictly after the start and within 60 calendar days, in order, none skipped |
| Slots.SlotsOfDay | apps/calendar/services.py:59-74 | the inner loop takes a day's slots in order and stops at the limit |
| Slots.LaterStartLaterSlots | apps/calendar/services.py:42-76 | a later start never gives an earlier i-th slot |
| Slots.FirstSlotsAreUnique | apps/calendar/services.py:42-76 | there is one list of first slots |
| Queue.Tables.EntriesByPosition | apps/calendar/services.py:91 | lists every entry once, by position |
| Queue.Tables.AssignQueueSlots | apps/calendar/services.py:79-113 | the k-th entry gets the k-th slot or none, its child on the account the same time, and every touched post is synced |
| Queue.Tables.WriteSlots | apps/calendar/services.py:98-110 | the first loop writes entries and children, and lists the touched posts |
| Queue.Tables.SyncPosts | apps/calendar/services.py:112-113 | the second loop syncs exactly the touched posts |
| Queue.Tables.AddToQueue | apps/calendar/services.py:116-139 | shifts and places at 0, or places behind the maximum, then assigns slots |
| Queue.Tables.UpdateOrCreate | apps/calendar/services.py:133-137 | moves the post's entry, or creates one |
| Queue.Tables.ReorderQueue | apps/calendar/services.py:142-147 | every listed id of the queue gets its index, others nothing, then assigns slots |
| QueueOrder.PriorityAddPrepends | apps/calendar/services.py:125-137 | a priority add takes the post out of the list and puts it first |
| QueueOrder.OrdinaryAddAppends | apps/calendar/services.py:130-137 | an ordinary add takes the post out of the list and puts it last |
| QueueOrder.PermutationOrders | apps/calendar/services.py:142-145 | reordering by a permutation of the entry ids yields exactly that order |
| QueueOrder.ListedMoves | apps/calendar/services.py:144-145 | an id listed more than once ends at its last index |
| QueueOrder.ReorderKeepsPositionsDistinctIff | apps/calendar/services.py:142-145 | any list of ids keeps positions distinct if and only if no entry left out sits at the final index of a listed one |
| QueueOrder.RunsRefineTheList | apps/calendar/services.py:116-147 | over every run of adds and of reorders by any ids without a collision the entries stand for the list the operations mean |
| QueueOrder.ReordersMeanTheirTargets | apps/calendar/services.py:142-145 | for any reorder without a collision that list has the same posts, ordered by the last index of the listed ones and the old position of the others, which keep their order among themselves |
| QueueOrder.PermutationsMeanTheirOrder | apps/calendar/services.py:142-145 | for a reorder by a permutation that list is its own order |
| QueueOrder.RunsKeepPositionsDistinct | apps/calendar/services.py:116-147 | over every such run positions stay distinct |
| QueueOrder.SlotsFollowPositions | apps/calendar/services.py:98-101 | slots increase with positions, no two entries share one, and the entries without one come last |
| QueueOrder.NoSlotIsLeftUnused | apps/calendar/services.py:95-101 | an entry goes without a slot only when every slot in the horizon is taken |
| QueueOrder.RerunNeverMovesEarlier | apps/calendar/services.py:79-113 | assigning again later never moves an entry that has a slot both times to an earlier one |
| QueueOrder.PostsFollowTheirEntries | apps/calendar/services.py:103-113 | a queued post's child on the account has the entry's slot, its other children are unchanged, its own time is the earliest |
| Posts.SyncedToTheEarliest | apps/composer/services.py:20-43 | the synced time is the least of the children's times, or missing if none has one |
| Posts.EarliestIsUnique | apps/composer/services.py:20-43 | there is one such time |
| Calendar.NextDayIsNext | apps/calendar/tasks.py:142-147 | the calendar's successor day has the next ordinal, across months, years and leap days |
| Calendar.YearLength | apps/calendar/tasks.py:142-147 | ordinals of consecutive years differ by 365, or 366 in a leap year |
| Calendar.LaterMonthIsLater | apps/calendar/tasks.py:147 | a day of a later month has a larger ordinal |
| Calendar.OrdinalIsInjective | apps/calendar/tasks.py:142-147 | two dates with one ordinal are one date |
| RecurrenceDates.ComputeRecurrenceDates | apps/calendar/tasks.py:135-156 | the loop returns exactly the first dates up to the end, at most 180, each said in closed form |
| RecurrenceDates.MonthStepIsNext | apps/calendar/tasks.py:146-147 | month steps clamp cumulatively: the day is the least of the base day and the months stepped to |
| RecurrenceDates.StepIsNext | apps/calendar/tasks.py:142-147 | one step leads from the k-th date to the next |
| RecurrenceDates.RecurrenceIsUnique | apps/calendar/tasks.py:135-156 | there is one list of recurrence dates |
| RecurrenceDates.DatesIncreaseAndAreComplete | apps/calendar/tasks.py:135-156 | with a positive interval the dates strictly increase and miss none up to the end or the limit |
| RecurrenceDates.DatesIncreaseIffIntervalIsPositive | apps/calendar/tasks.py:140-154 | they increase if and only if the interval is positive or there is nothing to repeat; interval 0 repeats the base date 180 times |
| Recurrence.CloneLandsOnItsDate | apps/calendar/tasks.py:64-108 | a clone keeps every per-platform offset and stays on its date if and only if the source's date is that of its earliest child |
| Recurrence.Generator.GenerateRecurringPosts | apps/calendar/tasks.py:18-132 | the loop over rules does one turn for each, in order, and counts the clones |
| Recurrence.Generator.GenerateRule | apps/calendar/tasks.py:31-126 | one turn clones the source for exactly the future dates no other post of the caption is on |
| Recurrence.Generator.ExistingDates | apps/calendar/tasks.py:48-56 | the dates of the other posts of the workspace with this caption |
| Recurrence.Generator.CloneFor | apps/calendar/tasks.py:64-108 | one clone with its children translated, synced if it has any |
| Recurrence.Generator.CloneChildren | apps/calendar/tasks.py:83-102 | every child keeps its distance from the post and is scheduled |
| Recurrence.TurnMakesClones | apps/calendar/tasks.py:58-126 | a turn adds one clone per missing date, in order, and nothing else |
| Recurrence.TurnSettles | apps/calendar/tasks.py:48-126 | after a turn every future date of the rule has a post, if clones stay on their dates |
| Recurrence.RerunMakesNothingIff | apps/calendar/tasks.py:48-126 | running one rule again at once makes nothing if and only if the source's date is that of its earliest child or every coming date already had a post, for any interval, also 0 |
| Recurrence.DriftedTurnIsRepeated | apps/calendar/tasks.py:48-126 | when clones leave their dates, a turn with something to make has something to make again |
| Recurrence.GenerationIsIdempotent | apps/calendar/tasks.py:18-132 | a second run on the same day creates nothing, for any list of rules |
| Recurrence.NoDateIsEverClonedTwice | apps/calendar/tasks.py:18-132 | over any number of runs on any days, and rules with positive intervals and sources on the date of their earliest child, no post is cloned twice for one date |
| Recurrence.TurnRepeatsADateIff | apps/calendar/tasks.py:58-126 | one turn of any rule clones its post twice for one date if and only if the interval is 0 and the base date is to come, not past the end and without another post; it then clones it 180 times |
| Snapshots.SnapshotTable.WriteSnapshot | apps/analytics/tasks.py:296-310 | upserts one row per metric of the day, stamps it, touches no other row, and counts them |
| Cadence.TheLadder | apps/analytics/tasks.py:40-60 | the table search gives the documented interval for every age |
| Cadence.LadderDecays | apps/analytics/tasks.py:40-60 | intervals never shrink with age, and a stopped post stays stopped |
| Cadence.Latest | apps/analytics/tasks.py:494-499 | the newest capture time outside the excluded metrics |
| Cadence.PostCadenceDue | apps/analytics/tasks.py:472-502 | due if and only if published, still on the ladder, and every row that counts is an interval old |
| Cadence.TickPost | apps/analytics/tasks.py:573-585 | one turn of the loop: the window filter at the time of the listing, the decision and the write at later ones |
| Cadence.FetchesAreSpaced | apps/analytics/tasks.py:472-502 | recording fetch number `i` finds the post at least as old as the closed form says, whatever else writes its rows |
| Cadence.AtMost79Records | apps/analytics/tasks.py:583-585 | over every run at most 79 fetches of a post that was published by its first fetch record something |
| Cadence.AtMost79Syncs | apps/analytics/tasks.py:583-585 | over every run whose fetches all record something a post that was published by its first fetch is fetched at most 79 times |
| Cadence.SeventyNineIsReached | apps/analytics/tasks.py:551-585 | a perfectly hourly loop fetches 79 times |
| Cadence.WithoutRecordsThereIsNoBound | apps/analytics/tasks.py:449-462 | fetches that record nothing are repeated at every tick |
| Cadence.EtaIsALowerBoundIff | apps/analytics/freshness.py:69-113 | on every platform the post is never due before the reported time if and only if that time is no later than any moment at which some rung's interval has passed since the last row that counts and the post is then on that rung |
| Cadence.EtaWithoutExclusionsIff | apps/analytics/freshness.py:69-113 | without excluded metrics that is so if and only if some row exists |
| Cadence.DueAtEtaIff | apps/analytics/freshness.py:103-113 | it is due at the reported time if and only if it is then still on the same rung |
| Cadence.AnExcludedRowDelaysTheEta | apps/analytics/freshness.py:100-113 | a video whose newest row is excluded is due 1000 seconds before the reported time |
| MetricFields.PostMetricsToDict | apps/analytics/tasks.py:142-185 | for every key, which field or extra its value comes from, with zeros and unparsable extras left out |
| MetricFields.OnlyThreadsFieldsCollide | apps/analytics/tasks.py:90-117 | two fields share a key only on Threads, where impressions and video views both become views |
| MetricFields.FieldsArriveIff | apps/analytics/tasks.py:155-170 | without extras a non-zero field arrives under its key unless Threads' video views replace it |
| YoutubeBatch.GetPostAnalytics | providers/youtube.py:576-643 | over all chunks and rows, every video that is mentioned, with its last entry |
| YoutubeBatch.AddResponse | providers/youtube.py:598-642 | the rows of one answer, skipped without a video column |
| YoutubeBatch.ReadRow | providers/youtube.py:622-642 | one row: missing, null and unparsable cells are skipped, shares truncate toward zero, an empty row says nothing |
| YoutubeBatch.BatchSetsOnlyItsFields | providers/youtube.py:622-642 | only the shares field and the two extras are ever set |
| YoutubeBatch.BatchValuesAreExcluded | apps/analytics/tasks.py:339-341 | everything the batch path can write is in the excluded set |
| YoutubeBatch.SyncYoutubePostAnalytics | apps/analytics/tasks.py:389-446 | each post found gets exactly its flattened entry of the day, the others nothing |
| YoutubeBatch.BatchWritesAreInvisible | apps/analytics/tasks.py:328-341 | such a write leaves every row the cadence looks at as it was |
| YoutubeBatch.BatchesDoNotInterfere | apps/analytics/tasks.py:330-341 | removing any number of batch writes from anywhere in a run changes no decision and no row that counts |
| Approvals.PlatformPost.TransitionTo | apps/composer/models.py:454-468 | moves along the transition table or raises, and stamps the publication time |
| Approvals.PlatformPost.TransitionOrSkip | apps/approvals/services.py:53-61 | true if the status was or became the goal |
| Approvals.PlatformPost.Move | apps/approvals/services.py:140-146 | one target: the goal, and for an approval out of internal review in the two-stage mode the client |
| Approvals.PostRow.ResolveTargets | apps/approvals/services.py:32-50 | the loop over the children returns the specified targets |
| Approvals.TargetsAreListed | apps/approvals/services.py:32-50 | what it returns lists the one child that is named, or each eligible child, once |
| Approvals.PostRow.MoveTargets | apps/approvals/services.py:86-89 | the loop moves exactly the targets that may move, and tells whether any did or was there already |
| Approvals.TurnsAreIndependent | apps/approvals/services.py:86-89 | moving distinct targets one after the other moves each as if it were alone |
| Approvals.PostRow.Perform | apps/approvals/services.py:80-274 | submit, approve, request changes, reject and resubmit: the new statuses, the missing-comment error, the one action row |
| Approvals.PostRow.TransitionPlatformPost | apps/composer/services.py:173-227 | the gate, the transition, the time that scheduling sets and drafting clears, the sync |
| Approvals.CreatePost | apps/composer/services.py:99-170 | every refusal of `create_post`, and the rows it creates otherwise |
| Approvals.PostRow.SyncPostScheduledAt | apps/composer/services.py:20-43 | the loop computes the earliest child time |
| ApprovalRuns.OneCall | apps/composer/models.py:356-368 | in a two-stage workspace a service call takes a child to review, client and approved only along the workflow |
| ApprovalRuns.EveryStatusIsExplained | apps/approvals/services.py:80-274 | over every run of services and transitions, bundled or single, a status under approval tells the calls, or the transition, that led to it |
| ApprovalRuns.ApprovedMeansTwoApprovalsOrATransition | apps/composer/services.py:173-227 | in a two-stage workspace an approved child had two separate approvals since its last submission, or a transition moved it and it has been under approval ever since |
| ApprovalRuns.ApprovedMeansTwoApprovals | apps/approvals/services.py:128-146 | under the approval services alone it passed internal and then client review by two separate approvals since its last submission |
| ApprovalRuns.RunsHaveTraces | apps/composer/services.py:99-227 | where approval is required, what a run did to any of its children is a trace of service calls and transitions that ends in the child's status |
| ApprovalRuns.ApprovedChildrenHadTwoApprovals | apps/approvals/services.py:80-274 | so over every run of creations, services and transitions in a two-stage workspace each approved child had two separate approvals since its last submission, or a transition moved it |
| ApprovalRuns.OtherModesNeedOneApproval | apps/approvals/services.py:136-145 | one approval out of review is enough if and only if the mode is not two-stage |
| ApprovalRuns.NothingIsScheduledPastTheGate | apps/composer/services.py:202-203 | where approval is required no run of approvals, creations and transitions schedules a child |
| ApprovalRuns.PublishingStarts | apps/composer/models.py:356-368 | behind the gate a child starts publishing only by a transition, from draft, approved or failed |
| ApprovalRuns.PublishedWithoutApprovalIff | apps/composer/services.py:202-203 | the gate guards scheduling only: a run gets a child into publication without its ever being approved if and only if it publishes it as a draft |
| ApprovalRuns.ChildrenPublishedWithoutApprovalIff | apps/composer/services.py:202-203 | the same for each child of every run of creations, services and transitions |
| ApprovalRuns.WithoutTheGateOneCallSchedules | apps/composer/services.py:241-252 | a fresh draft is scheduled by one call if and only if the gate passes |
| ApprovalRuns.TimesStayInStep | apps/composer/services.py:205-227 | in every mode, over every run, a post's time is its earliest child's and a draft has none |
| PostStatus.BelowIsAPartialOrder | apps/composer/status.py:12-26 | the statuses form a partial order, `published` and `failed` side by side |
| PostStatus.DerivedIsTheGreatestLowerBound | apps/composer/status.py:29-67 | the aggregate is the greatest lower bound of the children's statuses |
| PostStatus.OrderAndDuplicatesDoNotMatter | apps/composer/status.py:43-67 | only which statuses occur matters |
| PostStatus.DeriveIsCompositional | apps/composer/status.py:29-67 | aggregating two groups and then their aggregates is aggregating all at once |
| Throttle.AuthThrottle.RecordFailedAuth | apps/api/limits.py:319-335 | seeds the counter, bumps it without moving its end, or re-seeds one that vanished in between |
| Throttle.AuthThrottle.PreAuthReject | apps/api/auth.py:97-139 | rejects a blocked address without recording, and an insecure request with |
| Throttle.AuthThrottle.Authenticate | apps/api/auth.py:141-154 | accepts exactly valid secure requests that are not blocked, and records the others |
| Throttle.StepKeepsInv | apps/api/limits.py:312-335 | the counter counts the failures of the newest window, windows start at a failure and do not overlap |
| Throttle.AtMostTenPerWindow | apps/api/limits.py:304-335 | with one request at a time and one counter, a window is anchored at its first failure and records at most ten |
| Throttle.AtMostTwentyPerInterval | apps/api/limits.py:304-335 | with one request at a time and one counter, no 60-second interval, ends included, sees more than 20 failures |
| Throttle.WindowsAreNotLengthened | apps/api/limits.py:322-335 | a blocked request changes nothing, and no request on its own moves the end of a running window |
| Throttle.TwentyIsReached | apps/api/limits.py:312-316 | a run with 20 failures in 60 seconds |
| ThrottleRaces.PerLifeInClosedForm | apps/api/limits.py:304-335 | the bound for `k` overlapping requests: `9 k + k (k + 1) / 2`, that is 10 for one and 21 for two |
| ThrottleRaces.AtMostPerLifeOfACounter | apps/api/limits.py:319-335 | however the cache calls of at most `k` overlapping requests interleave, no more failures are recorded while there is a counter without a break |
| ThrottleRaces.AtMostPerInterval | apps/api/limits.py:304-335 | and no 60-second interval, ends included, sees more than twice as many |
| ThrottleRaces.OnlyReseedsMoveTheEnd | apps/api/limits.py:329-335 | a running counter is incremented, or overwritten by a request that saw an earlier one vanish; nothing else changes it or moves its end |
| ThrottleRaces.ProcessesAddUp | config/settings/base.py:134-139 | with one cache for each process an interval sees at most as many times that number as there are processes |
| ThrottleRaces.PerLifeIsReached | apps/api/limits.py:329-335 | for every `k` a run of `k` overlapping requests in which one counter sees that many failures in a single second |
| ThrottleRaces.OneAttempt | apps/api/auth.py:97-154 | the cache calls of a request that nothing disturbs leave the counter that `Throttle.AuthThrottle.Authenticate` leaves |
| QuotaMessage.ReadInvertsPrinted | apps/api/api.py:270 | reading a printed natural gives it back |
| QuotaMessage.SplittingInvertsSpacing | apps/api/api.py:267 | splitting words joined by spaces gives them back |
| QuotaMessage.ParseQuotaMessage | apps/api/api.py:259-281 | the last assignment of each name wins, and a header is set exactly for a name whose value is a number |
| QuotaMessage.FormatRoundTrips | apps/api/limits.py:166-172 | parsing a formatted message recovers every field if and only if the tier has no white space and is not a number |
| Utf8.DecodeOneInvertsEncodeOne | providers/bluesky.py:291-292 | a decoder that rejects overlong forms and surrogates reads back every encoded scalar value |
| Utf8.DecodeInvertsEncode | providers/bluesky.py:291-292 | decoding inverts encoding for every text |
| Utf8.SliceIsTheSubstring | providers/bluesky.py:291-292 | slicing the encoding between two character offsets gives the encoding of the characters between them |
| Utf8.OffsetIsBoundary | providers/bluesky.py:291-292 | an offset falls on a code-point boundary |
| Facets.LinkFacets | providers/bluesky.py:287-298 | one facet per match, covering it, ordered and disjoint |
| Facets.MentionFacets | providers/bluesky.py:300-316 | one facet per mention that resolves, with its identity, the others skipped |
| Facets.TagFacets | providers/bluesky.py:318-329 | one facet per hashtag, named without its sign |
| Facets.ParseFacets | providers/bluesky.py:279-331 | links, then mentions, then hashtags; every byte range cuts out exactly its match, and each kind is ordered and disjoint |

## Left out

- HTTP calls, OAuth, uploads and the publisher: they wrap services that cannot be seen; what a service answers is a parameter.
- Views, templates, forms, admin, notifications, reminders, audit logging: plumbing around the modelled services.
- Float rounding (`round(..., 1)`, `round(..., 2)`) and float error: values are reals, rates are taken before rounding.
- Time zones and daylight saving: one fixed offset, so a day is 86400 seconds and a date is a day number.
- Cryptography: HMAC and SHA-256 are opaque; a lookup is eight characters without an underscore.
- Regular expressions: the matches of a pattern are given as an ordered list of disjoint non-empty ranges, and resolving a handle is a function that may fail.
- Surrogates: `encode("utf-8")` raises on them, and a text here has none.
- Digits: `str.isdigit` also holds for non-ASCII digits; a numeral here is ASCII.
- Dates after year 9999, and the `OverflowError` of shares given as infinity.
- Retries and transactions: every query or update is one atomic step; in `KeyCache` the prefetch of the allowlist belongs to the row read.
- `apps/calendar/views.py` (`reschedule_post`) and the composer's own views: they move status and time by other routes, so the runs in `ApprovalRuns` do not include them.
- `generate_recurring_posts` sets children to scheduled directly; it is not a call of the runs in `ApprovalRuns`.
- Cadence.AtMost79Syncs: for fetches that return at least one metric that counts; `Cadence.AtMost79Records` counts those in any run, and `Cadence.WithoutRecordsThereIsNoBound` shows that the others have no bound.
- KeyStore.EditKeepsCoherence: entries count until something drops them, so a stranded one is stale even after the TTL has hidden it; the data migration that rewrites permissions with `bulk_update` is not among the edits.
- KeyCache.HitsOutliveTheTtlIff: verifiers and handlers of one cache, shared or of one process; an edit by another process is a write that no invalidation follows. A verifier that finds its row inactive drops the entry in the same step.
- KeyProcesses.ScopesAreStaleForLessThanTheTtl: a verification is one step here; `KeyCache` takes it apart.
- Throttle.AtMostTwentyPerInterval: one request at a time on one counter; `ThrottleRaces` has overlapping requests and several processes, with each cache call one step (Django's Redis backend tests and increments in two).
- QueueOrder.RunsRefineTheList: a reorder that collides may leave two entries on one position, after which their order is the database's; `QueueOrder.ReorderKeepsPositionsDistinctIff` says when.
- Recurrence.GenerationIsIdempotent: sources whose date is that of their earliest child; for the others see `Recurrence.RerunMakesNothingIff`.
- Recurrence: media attachments of a clone, and `last_generated_at`, which nothing reads.
- `account_freshness`, `hero_cards`, `follower_growth` and the other readers of the series: easy members.
- Credential resolution, tag normalisation and `_client_ip`: easy members.
