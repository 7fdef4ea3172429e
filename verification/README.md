# Verification of the gateway's state machines, the test runner and the CES server

This project models, in Dafny, the parts of the repository whose behaviour depends on state,
interleaving or loops, and proves what their callers rely on. The models take the form of the
source: a class with the source's fields where an object is updated in place, a method with a loop
where the source has a loop, one method per stretch of an `async` function between two awaits. Each
method is proved to change its state exactly as a specification function says, and the theorems are
about those functions over all inputs, all runs and all interleavings.

## What is modelled

**Deduplication caches** (`js_maps`, `dedup_cache`, `dedup_runs`, `dedup_answers`, `telegram_bots`).
The source's `Map` is a sequence of keys in insertion order with a map. Over whole runs: completions
that carry an earlier generation change nothing and no answer; after `reset` the cache answers like a
fresh one; the high-water mark is the greatest id finalized for the current bot, and an id is refused
as already processed exactly when one at least as high was finalized; a reservation excludes retries
exactly as long as no call evicts it, so at least while fewer than `maxSize - 1` other keys are
inserted, and that bound is tight. A finished update is answered with its own reply, and a marked
string key is remembered, for the time to live exactly as long as no call evicts it. The fingerprint
guard around `reset` makes these guarantees hold for as long as a bot's token stays the same.

**Credential cache** (`credential_cache`, `credential_outage`, `credential_freshness`). Every await is
a step; reads settle in any order with a value, missing, unreachable or an error. `inflight` is exactly
the set of unsettled reads of the current generation; the cache holds exactly what the reads since the
last invalidation have told, and answers by itself exactly for the time to live after one did; until an
invalidation discards it, an outage never hides the last known value; a rotated secret is certain to be
accepted exactly when the forced read is not one begun before the rotation.

**Credential watcher** (`credential_watcher`, `watcher_guarantees`, `watcher_polls`). Polls, debounce
timer, pending flags and reports as a step system. Polls never overlap and hold what the vault answered;
no wake-up and no force flag is dropped without `stop`, and nothing else causes a poll; the reports
replay to what the last complete poll read.

**Coverage merge and worker pool** (`text`, `lcov_*`, `list_scheduling`, `run_pool`, `longest_first`).
The merge reads and prints lcov text line by line. Its counts are the sums over the shards, the order
of the shards affects only the order of the lines, its totals count the keys that the shards together
count above 0, and merging the merged text again gives it back byte for byte exactly when the function
records pair up. The pool is a list scheduler: m·T is at most
the total work plus (m − 1) times the longest item, and with accurate recorded durations the finish
time is within 4/3 − 1/(3m) of every assignment.

**CES server** (`ces_framing`, `utf8`, `ces_session`, `ces_guarantees`, `ces_transcript`). Newline
framing, the once-only handshake, requests handed to handlers that settle in any order, and replies:
everything the server says in a run is told from what it received and how its handlers ended. What is
handled depends on the text received and not on how it is cut into chunks; byte chunks, which the
server decodes one by one, are safe exactly when no cut falls inside a character (UTF-8, section 3 of
RFC 3629).

**Unified diffs** (`unified_diff`, `diff_rendering`, `diff_round_trip`). The parser inverts rendering,
with true line numbers and true preceding lines, if and only if no added line starts with `++`.

**Rate limiter** (`auth_rate_limiter`, `rate_limit_window`). An ip is blocked exactly by its failures
in the window, counted over the whole log, unless the cap dropped it.

**Fallback counts** (`fallback_tracker`, `fallback_reporter`, `fallback_conservation`). Count objects
are updated in place and handed over when drained; drained objects never change afterwards, and every
increment is buffered, in the air, delivered, or dropped at the key cap.

**Channel starts** (`slack_socket`). With the generation, the Slack clients that run are exactly the
referenced one or none, and one runs exactly when the latest start found both its tokens. Without it, as for Discord, the number of clients left running unreferenced is
the number of answers that came while a client was referenced.

## Where the code does less than its comments say

- Re-saving credentials is meant to force a reload (`gateway/src/credential-watcher.ts:72-77`), but a
  forced poll that meets an unreachable vault uses the flag up: `WatcherGuarantees.ForcedChangeIsMissed`
  shows a run, `WatcherGuarantees.ForcedChangeIsReported` says over whole runs exactly when a raised
  flag ends in a report.
- A reservation is meant to block retries until the handler is done
  (`gateway/src/dedup-cache.ts:70-80`), but enough other updates evict it:
  `DedupRuns.OverwriteReopensReservation` shows a run, `DedupRuns.InFlightUnlessEvicted` says exactly
  when it holds.
- The coverage merge pairs FN and FNDA records by position; a report that breaks the pairing does not
  merge to a fixed point: `LcovMergeAgain.UnpairedReportChanges` shows one,
  `LcovMergeAgain.MergingAgain` says exactly which reports do.
- A forced refresh is meant to see a rotated secret (`gateway/src/credential-refresh.ts:23-28`), but it
  joins a read already in flight: `CredentialGuarantees.OlderReadAnswersOldSecret` shows a run,
  `CredentialGuarantees.ForcedReadIsCurrentExactly` says exactly which forced reads are certain to see
  the rotation, and `CredentialGuarantees.RotatedSecretIsAcceptedExactly` which checks.
- The added-line scan misses lines that start with `++` (`scripts/check-generic-examples.ts:158-174`):
  `DiffRoundTrip.MaskedLineIsMissed` and `DiffRoundTrip.ParserInvertsRendering`.

## Assumptions

The clock is read once per call and, for the rate limiter, does not run backwards. Numbers are
unbounded integers (durations are reals). JSON parsing, schemas, the credential reader, timers, file
events, HTTP answers and handlers are inputs of a run. Serializing credentials is taken to be
injective, and so is the token digest. Callbacks do not throw and do not call back into the object.

## Model

| member | source | states |
|---|---|---|
| DedupCaches.DedupCache.constructor | gateway/src/dedup-cache.ts:49-52 | a new cache is empty, has no mark, and is in generation 0 |
| DedupCaches.DedupCache.GetReply | gateway/src/dedup-cache.ts:59-68 | an expired entry is deleted, a reservation is not answered, a finalized entry gives its reply |
| DedupCaches.DedupCache.ReserveUpdate | gateway/src/dedup-cache.ts:81-120 | an unexpired entry is a duplicate before the mark is looked at; otherwise the mark decides, and a reservation is made after making room |
| DedupCaches.DedupCache.UnreserveUpdate | gateway/src/dedup-cache.ts:131-139 | only a reservation, and only for a caller of the current generation, is given up |
| DedupCaches.DedupCache.SetReply | gateway/src/dedup-cache.ts:142-181 | a completion of the current generation advances the mark, makes room and stores the reply; one of another generation changes nothing |
| DedupCaches.DedupCache.ResetAll | gateway/src/dedup-cache.ts:198-202 | the map and the mark are dropped and a new generation begins |
| DedupCaches.DedupCache.EvictExpired | gateway/src/dedup-cache.ts:217-229 | deleting while iterating leaves exactly the unexpired entries, in their order |
| DedupCaches.DedupCache.EvictForOneMore | gateway/src/dedup-cache.ts:163-173 | at capacity the expired entries go, and if that frees nothing the one inserted first |
| DedupCaches.StringDedupCache.constructor | gateway/src/dedup-cache.ts:249-252 | a new cache has neither keys nor reservations |
| DedupCaches.StringDedupCache.HasKey | gateway/src/dedup-cache.ts:268-277 | reserved or unexpired; an expired key is deleted |
| DedupCaches.StringDedupCache.ReserveFor | gateway/src/dedup-cache.ts:288-292 | a key is taken exactly when it is neither reserved nor unexpired |
| DedupCaches.StringDedupCache.UnreserveFor | gateway/src/dedup-cache.ts:298-300 | the reservation is given up and nothing else changes |
| DedupCaches.StringDedupCache.MarkSeen | gateway/src/dedup-cache.ts:307-323 | the reservation ends and the key is stored after making room |
| DedupCaches.StringDedupCache.CheckSeen | gateway/src/dedup-cache.ts:258-262 | whether the key was there; if not it is stored now |
| DedupCaches.StringDedupCache.EvictExpired | gateway/src/dedup-cache.ts:346-357 | deleting while iterating leaves exactly the unexpired keys, in their order |
| DedupCaches.StringDedupCache.EvictForOneMore | gateway/src/dedup-cache.ts:311-320 | at capacity the expired keys go, and if that frees nothing the one inserted first |
| DedupRuns.RunFits | gateway/src/dedup-cache.ts:101-110 | in every run the map stays in order and within `maxSize` |
| DedupRuns.DepartedBotsDoNotInterfere | gateway/src/dedup-cache.ts:131-181 | a run with completions of other generations anywhere in it ends in the same state, and answers all other calls alike, as the run without them |
| DedupRuns.ResetForgetsEverything | gateway/src/dedup-cache.ts:189-202 | after a reset the cache answers every further run as a fresh cache answers it without the departed completions |
| DedupRuns.MarkIsGreatestFinalized | gateway/src/dedup-cache.ts:26-33 | the mark is the greatest id finalized for the current bot, and there is none before the first |
| DedupRuns.NoReplay | gateway/src/dedup-cache.ts:81-120 | after every run, an id no entry holds is refused for good exactly when an id at least as high was finalized, whatever expired or was evicted |
| DedupRuns.RetryAfterFailure | gateway/src/dedup-cache.ts:122-139 | an id given up after a failure can be reserved again exactly when it is above every finalized id |
| DedupRuns.InFlightUnlessEvicted | gateway/src/dedup-cache.ts:70-120 | until it expires, is completed or the cache is reset, a reservation makes every retry along a run a duplicate if and only if no call evicts it: the map still full without its expired entries, and the reservation its oldest |
| DedupRuns.StepHeld | gateway/src/dedup-cache.ts:101-181 | one call that leaves the update alone removes its reservation exactly when it evicts it |
| DedupRuns.InFlightIsExclusive | gateway/src/dedup-cache.ts:70-120 | in particular a reservation makes every retry a duplicate while fewer than `maxSize - 1` other keys were inserted |
| DedupRuns.OverwriteReopensReservation | gateway/src/dedup-cache.ts:163-180 | with exactly `maxSize - 1` insertions an overwrite evicts the reservation and the id is reserved twice |
| DedupAnswers.CompletedIsAnswered | gateway/src/dedup-cache.ts:59-68 | after a completion at t with a reply, `get` answers exactly that reply up to t + ttl, before and after every later call, if and only if no call evicts the entry |
| DedupAnswers.AnswersAreLastReplies | gateway/src/dedup-cache.ts:59-68 | after every run, whatever `get` answers is the last reply given for the id since the last reset, and not older than the time to live |
| DedupAnswers.ReservedIsNotAnswered | gateway/src/dedup-cache.ts:54-67 | an update that is only reserved is never answered, in any run, until it is completed |
| DedupAnswers.SetStores | gateway/src/dedup-cache.ts:175-180 | a completion stores its own reply, finished, until now + ttl |
| DedupAnswers.SweepRemovesTheExpired | gateway/src/dedup-cache.ts:217-229 | a sweep removes an entry exactly when its time to live is over |
| DedupAnswers.GetRemovesTheExpired | gateway/src/dedup-cache.ts:62-65 | `get` removes the entry it finds expired, and nothing else |
| DedupRuns.SeenReservationIsExclusive | gateway/src/dedup-cache.ts:279-300 | a reserved string key stays taken until it is marked or given up, whatever the clock and the capacity |
| DedupAnswers.MarkedIsRemembered | gateway/src/dedup-cache.ts:258-323 | after a mark at t, every look up to t + ttl says seen and no reservation succeeds, whatever else is called, if and only if no call evicts the key |
| DedupAnswers.UnmarkedIsFree | gateway/src/dedup-cache.ts:268-292 | after every run, a key that is neither reserved nor marked within the time to live is free |
| DedupAnswers.GivenUpIsFree | gateway/src/dedup-cache.ts:294-300 | a reservation that was given up can be made again |
| DedupAnswers.LookingForgetsTheExpired | gateway/src/dedup-cache.ts:270-276 | looking for a key removes it if its time to live is over, and nothing else |
| DedupAnswers.SweepForgetsTheExpired | gateway/src/dedup-cache.ts:346-357 | a sweep removes a key exactly when its time to live is over, and no reservation |
| TelegramBots.TelegramDedup.OnCredentials | gateway/src/index.ts:2883-2891 | the cache is reset exactly when the token's fingerprint differs from the last one |
| TelegramBots.TelegramDedup.constructor | gateway/src/index.ts:2840-2840 | no token has been seen |
| TelegramBots.ForgetsWhenTheTokenChanges | gateway/src/index.ts:2836-2891 | over every run of reports and calls, the cache is the one that is reset once at each change of token and at no other report |
| TelegramBots.EmptyTokenIsNone | gateway/src/index.ts:2883-2891 | reporting an empty token is reporting none |
| TelegramBots.NoReplayWhileTheBotStays | gateway/src/index.ts:2871-2891 | replays are refused by what was finalized since the token last changed, however often services are reported as changed |
| CredentialCaches.CredentialCache.constructor | gateway/src/credential-cache.ts:31-33 | nothing is cached or in flight |
| CredentialCaches.CredentialCache.BeginFetch | gateway/src/credential-cache.ts:100-107 | a read in flight is joined, otherwise one is begun in the current generation |
| CredentialCaches.CredentialCache.BeginGet | gateway/src/credential-cache.ts:43-57 | an unexpired entry is answered unless forced; otherwise a read is joined or begun |
| CredentialCaches.CredentialCache.RefreshNow | gateway/src/credential-cache.ts:64-67 | a read of each key is joined or begun, in order |
| CredentialCaches.CredentialCache.InvalidateAll | gateway/src/credential-cache.ts:73-80 | a new generation begins with nothing cached or in flight |
| CredentialCaches.CredentialCache.OnSettled | gateway/src/credential-cache.ts:107-146 | how each outcome of a read changes the maps, and what its callers get, in and out of its generation |
| CredentialCaches.AlwaysCoalesced | gateway/src/credential-cache.ts:97-150 | in every interleaving `inflight` is exactly the unsettled reads of the current generation, at most one a key |
| CredentialCaches.StaleSettlementIsInert | gateway/src/credential-cache.ts:108-111 | a read overtaken by an invalidation changes neither map when it settles |
| CredentialCaches.CacheIsKnowledge | gateway/src/credential-cache.ts:112-138 | for every key the cache holds exactly what the reads since the last invalidation have told |
| CredentialFreshness.GetAnswersWhileFresh | gateway/src/credential-cache.ts:43-57 | after every run, an unforced `get` is answered from the cache exactly when less than ttl has passed since a read of the key last told something, and then with what is known; every other `get` awaits a read of the key that is under way |
| CredentialFreshness.SettledTellsWhatIsKnown | gateway/src/credential-cache.ts:107-146 | a read of the current generation tells its callers what is known of the key from then on, and throws exactly when the reader failed |
| CredentialFreshness.RefreshReadsEveryKey | gateway/src/credential-cache.ts:64-67 | after a refresh a read of each of its keys is under way |
| CredentialGuarantees.KnowledgeIsMostRecent | gateway/src/credential-cache.ts:114-137 | that is the value of the most recent reachable read |
| CredentialGuarantees.OutageKeepsTheLastValue | gateway/src/credential-cache.ts:43-57 | once a value was read, every `get` that starts later in the generation is answered with it through any outage |
| CredentialGuarantees.CachedValuesAreCurrent | gateway/src/credential-cache.ts:106-137 | every cached value came from a read begun after the last invalidation |
| CredentialGuarantees.ForcedReadIsCurrent | gateway/src/credential-cache.ts:43-57 | a forced `get` is answered, from its settlement on, with the value the vault has held since the change, if the read it begins or joins was begun after the change |
| CredentialGuarantees.ForcedReadIsCurrentExactly | gateway/src/credential-cache.ts:43-57 | the answer a forced `get` awaits is certain to be the value the vault took at a change, whatever a reachable vault may report, if and only if the read it began or joined was begun at the change or later |
| CredentialGuarantees.NothingOlderToJoin | gateway/src/credential-cache.ts:100-107 | if no read of the key was in flight at the change, every forced `get` after it begins or joins a later read |
| CredentialGuarantees.OlderReadAnswersOldSecret | gateway/src/credential-cache.ts:100-104 | a run in which a forced `get` joins a read begun before the change and is answered the old secret |
| CredentialGuarantees.SecretCheck.constructor | gateway/src/credential-refresh.ts:33-45 | the check has begun its first, unforced `get` and awaits it |
| CredentialGuarantees.SecretCheck.Settled | gateway/src/credential-refresh.ts:45-50 | the answer, if any, to the `get` the verification awaits |
| CredentialGuarantees.SecretCheck.Resume | gateway/src/credential-refresh.ts:45-58 | what the verification does when what it awaits is answered |
| CredentialFreshness.CheckFollowsTheSecret | gateway/src/credential-refresh.ts:45-58 | a check accepts exactly under a valid secret, refuses only after the forced look, and throws exactly when the read did |
| CredentialFreshness.NothingIsValidUnderNone | gateway/src/credential-refresh.ts:46-53 | an absent or empty secret validates nothing |
| CredentialGuarantees.RotatedSecretIsAccepted | gateway/src/credential-refresh.ts:33-59 | followed from its first `get` through any resumptions, a check that the cached secret does not pass is decided by the current secret, whatever the cache held |
| CredentialGuarantees.RotatedSecretIsAcceptedExactly | gateway/src/credential-refresh.ts:33-59 | a request valid under the current secret alone is certain to be accepted if and only if the forced read was begun at the rotation or later; otherwise the check may end refusing it |
| CredentialGuarantees.OlderReadMayReportPrevious | gateway/src/credential-cache.ts:100-139 | every read begun before a change may still answer what the vault held just before it |
| CredentialWatchers.CredentialWatcher.constructor | gateway/src/credential-watcher.ts:40-55 | nothing polled, pending or reported |
| CredentialWatchers.CredentialWatcher.ScheduleCheck | gateway/src/credential-watcher.ts:208-215 | the timer is armed and a force flag is remembered |
| CredentialWatchers.CredentialWatcher.OnTimer | gateway/src/credential-watcher.ts:215-220 | the timer takes the force flag into a poll |
| CredentialWatchers.CredentialWatcher.PollOnce | gateway/src/credential-watcher.ts:223-233 | during a poll another is requested, otherwise one begins |
| CredentialWatchers.CredentialWatcher.OnRead | gateway/src/credential-watcher.ts:237-276 | one more service is read; an unreachable vault ends the poll, the last service completes it |
| CredentialWatchers.CredentialWatcher.CompareAll | gateway/src/credential-watcher.ts:256-276 | the comparison with what was serialized last, and the event handed to the callback |
| CredentialWatchers.CredentialWatcher.Finally | gateway/src/credential-watcher.ts:277-285 | the poll ends, and a requested one begins with the pending force flag |
| CredentialWatchers.CredentialWatcher.StopWatching | gateway/src/credential-watcher.ts:114-130 | the timer and the requested poll are given up |
| WatcherGuarantees.PollsNeverOverlap | gateway/src/credential-watcher.ts:223-285 | in every run at most one poll is active, and `polling` says whether |
| WatcherPolls.PollsHoldTheAnswers | gateway/src/credential-watcher.ts:237-251 | in every run each poll holds exactly what the vault answered to its reads, in order |
| WatcherPolls.OnlyWakeUpsCausePolls | gateway/src/credential-watcher.ts:208-285 | polls are no more than requests and fired timers, fired timers no more than file events, forced polls no more than raised flags |
| WatcherPolls.NoPollAfterStop | gateway/src/credential-watcher.ts:114-130 | after `stop` neither the timer nor the active poll begins another |
| WatcherGuarantees.NothingRaisedIsDropped | gateway/src/credential-watcher.ts:208-285 | without `stop`, a wake-up or force flag is held by a later poll, the timer or the active poll from the moment it is raised |
| WatcherGuarantees.QuietMeansPolled | gateway/src/credential-watcher.ts:208-285 | when nothing is under way, each wake-up has had a poll begun at it or later, and each force flag a forced one |
| WatcherGuarantees.CompleteReports | gateway/src/credential-watcher.ts:256-276 | a complete poll reports exactly the services that differ from the last complete poll and, if forced, all that have credentials |
| WatcherGuarantees.ReportNamesTheChanges | gateway/src/credential-watcher.ts:256-274 | the services named are those whose credentials differ from the previous ones and, if forced, those that are there; with none there is no report |
| WatcherGuarantees.ReportApplies | gateway/src/credential-watcher.ts:256-276 | applying a report to the state before the poll gives the state after it |
| WatcherGuarantees.OnlyCompletionReports | gateway/src/credential-watcher.ts:237-246 | any step but the completion of a poll changes neither what is serialized nor what was reported |
| WatcherGuarantees.ReportsReplay | gateway/src/credential-watcher.ts:234-276 | applying the reports to an empty replica gives in every run what the last complete poll read |
| WatcherGuarantees.ForcedChangeIsReported | gateway/src/credential-watcher.ts:208-285 | in every run without `stop` that has come to rest, a raised force flag has led to a report of all credentials by a forced poll begun since, if and only if some forced poll begun since never met an unreachable vault |
| WatcherGuarantees.ReportedUnlessInterrupted | gateway/src/credential-watcher.ts:234-276 | a forced poll that has returned has reported every service with credentials exactly when none of its reads was unreachable |
| WatcherGuarantees.UnreachableSwallowsForce | gateway/src/credential-watcher.ts:239-245 | after an unreachable poll a forced poll is to come exactly when the flag was raised again meanwhile and the timer or a requested poll takes it up |
| WatcherGuarantees.ForcedChangeIsMissed | gateway/src/credential-watcher.ts:72-77 | a run in which re-saved credentials are announced and never reported |
| ListScheduling.WorkIsConserved | assistant/scripts/test.ts:290-310 | the loads of the workers add up to the work of all items |
| ListScheduling.GrahamBound | assistant/scripts/test.ts:290-310 | greedy assignment: m·T is at most the total work plus m − 1 times the longest item |
| ListScheduling.LongItemFitsWithin | assistant/scripts/test.ts:115-118 | longest-first finishes an item longer than a third of any achievable bound within that bound |
| ListScheduling.LongestFirstBound | assistant/scripts/test.ts:115-118 | longest-first is within 4/3 − 1/(3m) of every assignment of the items |
| RunPool.Pool.constructor | assistant/scripts/test.ts:295-296 | no item taken, no result |
| RunPool.Pool.StartRunner | assistant/scripts/test.ts:297-302 | a runner takes the next index, or ends when there is none |
| RunPool.Pool.Settle | assistant/scripts/test.ts:298-304 | the result lands at the item's own index and the runner takes the next; no runner is idle while an item waits |
| RunPool.StartRunners | assistant/scripts/test.ts:306-308 | runner r takes item r, and each is the first that is free |
| RunPool.FirstToSettle | assistant/scripts/test.ts:303-303 | among the busy runners, one whose item is due first |
| RunPool.SettleFirst | assistant/scripts/test.ts:298-304 | the next item goes to the runner that is free first, which keeps the schedule greedy |
| RunPool.DueFirst | assistant/scripts/test.ts:298-304 | while items are left, the runner due first has the least load of all |
| RunPool.Run | assistant/scripts/test.ts:290-310 | every item runs exactly once with at most `min(concurrency, n)` runners, results keep their index, the schedule is greedy, and m·T is at most the total work plus m − 1 times the longest item |
| LongestFirst.SortIsStable | assistant/scripts/test.ts:142-142 | the sort is a permutation, longest first, and keeps equal durations in order |
| LongestFirst.SortLongestFirst | assistant/scripts/test.ts:118-147 | files with a recorded duration come sorted, the others after them in their order |
| LongestFirst.RunLongestFirst | assistant/scripts/test.ts:526-543 | sorting by accurate durations and sharing the files out meets the 4/3 − 1/(3m) bound |
| LcovLines.ParsePrinted | assistant/scripts/test.ts:362-400 | every printed line reads back as the record it prints |
| Text.ParseShown | assistant/scripts/test.ts:373-373 | a printed number parses back, whatever follows it |
| Text.ParsePadded | assistant/scripts/test.ts:373-373 | white space and a plus sign in front of a number do not matter |
| Text.SplitTerminated | assistant/scripts/test.ts:361-361 | splitting at newlines undoes terminating lines with them |
| LcovMerge.CountInto | assistant/scripts/test.ts:374-379 | a count is added to its key, which keeps its first position |
| LcovMerge.CountBranch | assistant/scripts/test.ts:399-418 | how a branch record, numeric or `-`, changes its file's branches |
| LcovMerge.CountRecord | assistant/scripts/test.ts:371-418 | how a record of the open file changes its coverage |
| LcovMerge.OpenFile | assistant/scripts/test.ts:362-367 | a file is entered once, with nothing counted, at its first SF line |
| LcovMerge.RecordLine | assistant/scripts/test.ts:371-418 | a record changes the open file and no other |
| LcovMerge.ReadLine | assistant/scripts/test.ts:361-420 | one line moves the cursor and folds its record into the report |
| LcovMerge.ReadLines | assistant/scripts/test.ts:356-420 | one shard, read from the start of a block cursor of its own |
| LcovMerge.ReadShards | assistant/scripts/test.ts:349-421 | the report after all shards is the function of all their records in reading order |
| LcovMerge.PrintRecords | assistant/scripts/test.ts:434-446 | records are printed in order, counted, and those that were hit |
| LcovMerge.PrintBlock | assistant/scripts/test.ts:428-483 | the block of one file, with totals that match its records |
| LcovMerge.PrintReport | assistant/scripts/test.ts:427-483 | the blocks of all files in the order they were opened |
| LcovMerge.MergeLcov | assistant/scripts/test.ts:321-486 | the merged text, or none when no shard has a report |
| LcovMerge.CovIsConsistent | assistant/scripts/test.ts:403-415 | a branch without a number counts zero, in every merge |
| LcovMergeAgain.TotalsAddUp | assistant/scripts/test.ts:356-420 | a key's merged count is the sum of what the shards one by one count for it |
| LcovMergeAgain.MergeConservesCounts | assistant/scripts/test.ts:349-420 | the report has exactly the files some shard opens; in each, every key some shard reports appears once with the sum over all shards, and a branch is `-` only if no shard has a number |
| LcovTotals.BlockIsText | assistant/scripts/test.ts:428-483 | a file's printed block, spelled out line by line, with totals that are numbers of keys |
| LcovTotals.TotalsCountCoveredKeys | assistant/scripts/test.ts:434-482 | in every merged report LF, FNF and BRF are the numbers of keys listed, and LH, FNH and BRH the numbers of those the shards together count above 0 |
| LcovTotals.MergedWhenAnyReport | assistant/scripts/test.ts:423-486 | there is a merged report exactly when some shard has one |
| LcovTotals.ListedAsFirstSeen | assistant/scripts/test.ts:322-331 | keys are listed in the order in which they were first seen |
| LcovTotals.MissingCountIsZero | assistant/scripts/test.ts:372-373 | a count that is missing or no number is 0 |
| LcovOrder.ShardOrderIsImmaterial | assistant/scripts/test.ts:349-421 | reading the shards in another order gives the same files, keys and counts |
| LcovOrder.SumAtPermuted | assistant/scripts/test.ts:374-379 | a key's sum is the same in every order of the records |
| LcovOrder.ReorderedShardsPrintTheSameLines | assistant/scripts/test.ts:427-484 | and prints the same lines in another order |
| LcovRoundTrip.ReadReport | assistant/scripts/test.ts:361-484 | the printed report reads as the records of its blocks |
| LcovRoundTrip.ReadBlock | assistant/scripts/test.ts:361-482 | a printed block reads as its records from any position |
| LcovIdempotent.SettledPrintsTheSame | assistant/scripts/test.ts:387-446 | a file whose function names are paired by position prints the same after being read back |
| LcovIdempotent.SamePrintIsSettled | assistant/scripts/test.ts:387-446 | and only such a file does |
| LcovMergeAgain.MergingAgain | assistant/scripts/test.ts:356-484 | merging the merged text gives it back byte for byte exactly when each printed FNDA record pairs by position with its own function |
| LcovMergeAgain.PairedReportsMergeOnce | assistant/scripts/test.ts:358-398 | reports with one FNDA record after each FN record in every block merge idempotently |
| LcovMergeAgain.UnpairedReportChanges | assistant/scripts/test.ts:391-391 | a report with an FNDA record ahead of its FN record does not |
| CesFraming.FrameOneLine | credential-executor/src/server.ts:212-220 | what one round of the loop takes off the buffer |
| CesFraming.TrimTakesOffSpace | credential-executor/src/server.ts:215-215 | trimming takes off white space at both ends, all of it and nothing else |
| CesFraming.ChunksDoNotMatter | credential-executor/src/server.ts:161-220 | chunk by chunk, the lines handled are the trimmed non-empty lines of the whole text, and the rest stays in the buffer |
| CesFraming.SameTextSameLines | credential-executor/src/server.ts:161-220 | any two ways to cut a text are handled alike |
| Utf8.DecodeText | credential-executor/src/server.ts:163-164 | decoding the bytes of a text gives the text |
| Utf8.HeadIsReplaced | credential-executor/src/server.ts:163-164 | a character broken off at the end of a chunk decodes to one replacement character |
| Utf8.TailIsReplaced | credential-executor/src/server.ts:163-164 | and its remaining bytes at the start of the next to one replacement character each |
| Utf8.DecodedApart | credential-executor/src/server.ts:163-164 | two chunks decoded apart give the text exactly when the cut is not inside a character |
| Utf8.WholeCharactersDecode | credential-executor/src/server.ts:163-164 | chunks cut between characters decode to their pieces |
| Utf8.CutIsNoShorter | credential-executor/src/server.ts:163-164 | whatever the bytes, cutting them never makes fewer characters |
| Utf8.ChunksDecode | credential-executor/src/server.ts:163-164 | any number of chunks of an encoded text, decoded one by one, give the text exactly when no cut splits a character |
| Utf8.DecodedIsEncoded | credential-executor/src/server.ts:163-164 | whatever the bytes, a character that is decoded and not replaced is the one the bytes encode |
| CesSession.CesRpcServer.constructor | credential-executor/src/server.ts:103-122 | nothing received, no session, nothing sent |
| CesSession.CesRpcServer.OnData | credential-executor/src/server.ts:161-166 | a chunk is ignored once closed, otherwise its complete lines are handled in order and the rest is kept |
| CesSession.CesRpcServer.ProcessBuffer | credential-executor/src/server.ts:212-220 | the loop handles the trimmed non-empty lines up to the last newline |
| CesSession.CesRpcServer.OnLine | credential-executor/src/server.ts:222-300 | what each kind of message does, the handshake included |
| CesSession.CesRpcServer.OnEnvelope | credential-executor/src/server.ts:302-354 | which error a request meets, or that its handler is called with the validated payload |
| CesSession.CesRpcServer.OnSettled | credential-executor/src/server.ts:347-353 | a settled handler sends one reply with its own id and method |
| CesSession.CesRpcServer.SendMessage | credential-executor/src/server.ts:387-391 | a message is written unless the connection is closed |
| CesSession.CesRpcServer.Close | credential-executor/src/server.ts:197-206 | the connection is closed and nothing else changes |
| CesSession.OpenRunReadsItsText | credential-executor/src/server.ts:161-220 | while open, with handlers settling in between, the lines handled are those of all the text that arrived |
| CesGuarantees.AlwaysSound | credential-executor/src/server.ts:243-310 | at most one handshake is accepted, with the session's id, of which the callback is told once, and nothing is started or served before it |
| CesGuarantees.SessionIdIsFixed | credential-executor/src/server.ts:243-284 | the session id never changes after the handshake |
| CesGuarantees.EveryRequestOneReply | credential-executor/src/server.ts:302-391 | replies sent plus handlers running equal the messages that call for a reply while open, and are never more |
| CesGuarantees.OneReplyEach | credential-executor/src/server.ts:302-385 | a message alone with its id has at most one reply, and has it exactly when its handler is through |
| CesGuarantees.HandlersServeValidRequests | credential-executor/src/server.ts:302-348 | handlers are called for exactly the valid requests after the handshake, in order, with their payloads |
| CesGuarantees.ResultsComeFromHandlers | credential-executor/src/server.ts:346-385 | replies with a handler's outcome are matched one for one by settled handler calls of their id and method |
| CesTranscript.SaysExactlyTheTranscript | credential-executor/src/server.ts:222-391 | the messages of every run are exactly, in order: an acknowledgement for each handshake, each refusal with its own code, what each handler resolved to, and the error of each that rejected or threw; nothing once closed |
| CesTranscript.TellsTheFirstHandshake | credential-executor/src/server.ts:282-294 | the handshake callback is told of the first accepted handshake, with what it brought, and of no other |
| CesTranscript.ClosedWhenTold | credential-executor/src/server.ts:197-206 | a run is closed exactly from the moment it is told to close |
| CesGuarantees.OpenRunBeginsItsText | credential-executor/src/server.ts:161-354 | session and handler calls depend on the text alone, not on chunks or the order of settlement |
| CesGuarantees.ChunksAreHandledAsOne | credential-executor/src/server.ts:161-220 | chunks leave the server in the state the whole text leaves it in |
| CesGuarantees.WholeCharacterChunksAreHandledAsOne | credential-executor/src/server.ts:161-220 | and so do byte chunks cut between characters |
| CesGuarantees.BytesArriveWhole | credential-executor/src/server.ts:161-166 | byte chunks bring the server the text they encode exactly when no cut splits a character |
| CesGuarantees.ByteChunksAreHandledAsOne | credential-executor/src/server.ts:161-220 | and then they leave it in the state the text leaves it in |
| UnifiedDiff.ParseUnifiedDiff | scripts/check-generic-examples.ts:149-195 | the loop returns the rows its line-by-line specification gives |
| DiffRendering.ShownByNow | scripts/check-generic-examples.ts:176-178 | the line before an added line is remembered exactly when some hunk shows it |
| DiffRendering.StartRead | scripts/check-generic-examples.ts:168-171 | every hunk header, with or without counts and section text, reads as its new-file start |
| DiffRendering.ReadFiles | scripts/check-generic-examples.ts:149-195 | without masked lines the parser finds exactly the added lines with true numbers and true preceding lines |
| DiffRoundTrip.ParserInvertsRendering | scripts/check-generic-examples.ts:149-195 | on every rendered diff it does so if and only if no added line starts with `++` |
| DiffRoundTrip.MaskedLineIsMissed | scripts/check-generic-examples.ts:158-174 | a new file whose one line is `++x` gives no row at all |
| DiffRoundTrip.PathIsRead | scripts/check-generic-examples.ts:160-161 | a path is read exactly when it is not empty and has no line end in it |
| DiffRoundTrip.RepeatedFileKeepsItsLines | scripts/check-generic-examples.ts:162-164 | a file that comes up again keeps the lines remembered of it |
| DiffRoundTrip.CombinedHeaderIsIgnored | scripts/check-generic-examples.ts:167-171 | the header of a combined diff changes nothing |
| AuthRateLimiters.AuthRateLimiter.constructor | gateway/src/auth-rate-limiter.ts:13-19 | no failures recorded |
| AuthRateLimiters.AuthRateLimiter.RecordFailure | gateway/src/auth-rate-limiter.ts:22-40 | the failure is appended; a new ip at the cap first evicts, then drops the oldest entry |
| AuthRateLimiters.AuthRateLimiter.IsBlocked | gateway/src/auth-rate-limiter.ts:43-61 | expired failures are shifted off, an empty list is deleted, and the rest is compared with the limit |
| AuthRateLimiters.AuthRateLimiter.ClearIp | gateway/src/auth-rate-limiter.ts:64-66 | the ip's failures are forgotten |
| AuthRateLimiters.AuthRateLimiter.EvictStale | gateway/src/auth-rate-limiter.ts:68-78 | pruning and deleting while iterating leaves the live lists, in order |
| AuthRateLimiters.AuthRateLimiter.Shift | gateway/src/auth-rate-limiter.ts:51-53 | the expired front is removed |
| RateLimitWindow.BlockedExactly | gateway/src/auth-rate-limiter.ts:22-61 | blocked exactly when the failures in the window since the last clear or drop reach the limit |
| RateLimitWindow.TrackedIsLess | gateway/src/auth-rate-limiter.ts:26-36 | what the cap has not dropped is never more than the whole log |
| RateLimitWindow.BlockedIsDeserved | gateway/src/auth-rate-limiter.ts:43-61 | whoever is blocked has reached the limit in the window over the whole log |
| RateLimitWindow.BlockedByTheWindow | gateway/src/auth-rate-limiter.ts:43-61 | unless the cap dropped it, an ip is blocked exactly by its failures in the window |
| RateLimitWindow.ListsAreSorted | gateway/src/auth-rate-limiter.ts:22-78 | lists are non-empty, sorted and not in the future, and the map is within its cap |
| RateLimitWindow.DropsOnlyAtTheCap | gateway/src/auth-rate-limiter.ts:26-36 | at most 50000 ips are tracked, and an ip is dropped only when there are that many and another one fails |
| FallbackTrackers.AuthFallbackCountTracker.constructor | gateway/src/auth-fallback-count-tracker.ts:41-43 | nothing counted, window open |
| FallbackTrackers.AuthFallbackCountTracker.Increment | gateway/src/auth-fallback-count-tracker.ts:46-48 | one is counted in |
| FallbackTrackers.AuthFallbackCountTracker.Tally | gateway/src/auth-fallback-count-tracker.ts:89-112 | the key's object is updated in place, or a new one is entered below the cap |
| FallbackTrackers.AuthFallbackCountTracker.Enter | gateway/src/auth-fallback-count-tracker.ts:111-111 | the new object is the only one that joins the map, at its end |
| FallbackTrackers.Count.constructor | gateway/src/auth-fallback-count-tracker.ts:22-27 | an object with the given guard, path, kind and count |
| FallbackTrackers.AuthFallbackCountTracker.Drain | gateway/src/auth-fallback-count-tracker.ts:55-65 | the objects are handed out in key order and a new map and window begin; an empty drain changes nothing |
| FallbackTrackers.AuthFallbackCountTracker.Merge | gateway/src/auth-fallback-count-tracker.ts:71-75 | a batch is counted in again without touching its objects |
| FallbackReporters.AuthFallbackReporter.constructor | gateway/src/auth-fallback-reporter.ts:59-65 | nothing posted and nothing drained |
| FallbackReporters.AuthFallbackReporter.BeginFlush | gateway/src/auth-fallback-reporter.ts:87-102 | what was counted goes into the air with its window; drained objects stay out of the tracker |
| FallbackReporters.AuthFallbackReporter.OnAnswer | gateway/src/auth-fallback-reporter.ts:104-125 | a refused or failed flush is counted in again, and every drained object still has the value posted |
| FallbackReporters.AuthFallbackReporter.OnFallback | gateway/src/auth-fallback-count-tracker.ts:46-48 | increments during flushes leave drained objects alone |
| FallbackConservation.KeyIsInjective | gateway/src/auth-fallback-count-tracker.ts:16-19 | the composite key is injective when guard and failure kind have no space |
| FallbackConservation.SpacesCollide | gateway/src/auth-fallback-count-tracker.ts:16-19 | with spaces two counts share a key |
| FallbackConservation.AddAmounts | gateway/src/auth-fallback-count-tracker.ts:89-112 | counting an entry in adds to its own amount alone, or is dropped at the cap |
| FallbackConservation.CountsAreConserved | gateway/src/auth-fallback-reporter.ts:87-126 | increments = buffered + in the air + delivered + dropped at the cap, for each count, in every run of overlapping flushes |
| FallbackConservation.FlushPostsWhatIsBuffered | gateway/src/auth-fallback-reporter.ts:87-102 | a flush posts everything buffered, under the window up to now, and leaves nothing buffered |
| FallbackConservation.AnswersDecide | gateway/src/auth-fallback-reporter.ts:104-125 | a flight counts as delivered or refused exactly as its first answer says |
| FallbackConservation.NothingLostBelowTheCap | gateway/src/auth-fallback-count-tracker.ts:101-110 | nothing is dropped while the keys are fewer than 10000 |
| FallbackConservation.WindowsAlwaysMeet | gateway/src/auth-fallback-count-tracker.ts:50-65 | the windows of successive flushes meet without gap or overlap |
| ChannelStarts.SlackLifecycle.constructor | gateway/src/index.ts:2470-2477 | no client and no start |
| ChannelStarts.SlackLifecycle.StartSlackSocket | gateway/src/index.ts:2527-2532 | the referenced client is stopped and a new generation begins |
| ChannelStarts.SlackLifecycle.OnBotToken | gateway/src/index.ts:2534-2536 | the first credential is in, or the call has failed |
| ChannelStarts.SlackLifecycle.OnAppToken | gateway/src/index.ts:2537-2557 | a client is created only by the current generation with both tokens |
| ChannelStarts.AlwaysOneClient | gateway/src/index.ts:2472-2557 | the clients that run are exactly the referenced one or none, created by the latest call |
| ChannelStarts.OnlyTheLatestCreates | gateway/src/index.ts:2540-2557 | only the latest call can create a client |
| ChannelStarts.ConnectedByTheLatestStart | gateway/src/index.ts:2527-2557 | in every run a client runs exactly when both credential reads of the latest start were answered with a token |
| ChannelStarts.DiscordLeaksWhatItOverwrites | gateway/src/index.ts:2778-2820 | clients left running unreferenced are as many as the answers that came while one was referenced |
| ChannelStarts.OverlappingDiscordStartsLeak | gateway/src/index.ts:2778-2820 | two overlapping starts leave two clients running |

## Left out

- The readers behind the credential cache and watcher: decryption, the CES HTTP client, file reads and file watching. A read's result is an input.
- JSON parsing, the message and request schemas, and the handlers of the CES server; they are functions or events of a run.
- A handshake callback or handler that closes the connection while a chunk is being handled.
- `resolveCredentialWithRefresh`, which is the forced read proved in `CredentialGuarantees.ForcedReadIsCurrent` without a check.
- CredentialGuarantees.ForcedReadIsCurrent: requires that the read it joins was begun after the change; `CredentialGuarantees.ForcedReadIsCurrentExactly` shows that this cannot be spared.
- CredentialGuarantees.RotatedSecretIsAccepted: requires the same of the forced read, and that the vault is reachable; `CredentialGuarantees.RotatedSecretIsAcceptedExactly` is exact about the read.
- CredentialCaches.CredentialCache.RefreshNow: is given its keys; the default, all cached keys, is a caller's choice of them.
- CredentialCaches.CredentialCache.InvalidateAll: does not model the invalidation listeners.
- CredentialWatchers.CredentialWatcher.OnRead: does not model the sets of configured and ready services, which no report depends on.
- CredentialGuarantees.OutageKeepsTheLastValue: holds within one generation, because an invalidation discards the last known values.
- DedupRuns.InFlightIsExclusive: bounds the insertions of other keys; the exact condition is that of `DedupRuns.InFlightUnlessEvicted`.
- WatcherGuarantees.NothingRaisedIsDropped: excludes `stop`, which gives up the timer and the requested poll.
- The watcher's readiness tracking and the managed bootstrap timer, which only decide when a poll is requested; the await for the configured services is part of the first read.
- Clocks that run backwards in the rate limiter; doubles, where counts above 2^53 lose precision.
- NaN durations in the durations file and its line format; recorded durations are a map from path to integer.
- Directory listing, spawning test files and writing the merged report.
- Quoted paths in diffs and the tab git appends to paths with spaces; diffs in which one path has two sections.
- The fallback log throttle and the config file watcher; they would repeat the shapes proved here.
- The config write chain: the one callback it is given, by `mutateConfigFile`, reads, changes and writes the file without awaiting anything, so the writes could not interleave without it.
- Shutdown, which stops the channel clients outside the start protocol, and the clients' own connections.
- Timestamps of replies and all logging.
