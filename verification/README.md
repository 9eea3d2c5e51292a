# Channel monitor: verified models

This project models the parts of the Cline channel monitor that hold state, protocols and text
transformations, and proves what they promise. Each part is modelled in the form its source has: objects
whose methods update fields are classes, loops are loops with invariants, and every such method is tied to a
specification function about which the results are then proved. Times are integers, nanoseconds where the
source compares durations.

The parts, and the files they are in:

- **Account guard** (`guard.dfy`, `guard_inputs.dfy`, `guard_rounds.dfy`, `guard_backoff.dfy`,
  `guard_history.dfy`): the state machine that counts off-baseline requests per account and decides disable,
  enable, dry run or external enable. Results are about one round, and about every run from an empty state
  through a history of what happened to each account.
- **Guard runner** (`runner.dfy`, `runner_ownership.dfy`, `runner_overlay.dfy`, `runner_limits.dfy`,
  `runner_file.dfy`, `runner_floor.dfy`, `runner_stranded.dfy`, `runner_crash.dfy`, `runner_scenarios.dfy`,
  `runner_failures.dfy`, `runner_checkpoints.dfy`): the protocol around it. A world of memory, audit trail,
  configuration file, pending writes and saved state moves by ticks in which every read, append, save and write
  may fail, and by operator edits, restarts, losses of the state file and crashes in the middle of a tick.
- **Official-usage collector** (`collector.dfy`, `collector_refines.dfy`, `collector_walk.dfy`,
  `collector_gaps.dfy`, `aggregate.dfy`, `window_counts.dfy`, `window_gaps.dfy`): incremental cursor paging with
  a watermark, in-place pruning, backoff, and the bucketed windows; proved to refine the set of server records
  in the retention window.
- **Configuration edits** (`bytetext.dfy`, `scalaredit.dfy`, `scalarquoted.dfy`, `scalarinsert.dfy`,
  `scalarline.dfy`, `bytelaws.dfy`, `flowtext.dfy`, `flowbytes.dfy`, `flowmodes.dfy`, `flowast.dfy`,
  `flowcommute.dfy`, `flowdefaults.dfy`, `flowlimits.dfy`): the scalar replacer, the line inserter and the
  flow-mapping inserter on raw bytes. Flow values are a tree with a printer after YAML 1.2.2, sections 7.3.1,
  7.3.2 and 7.4, and the byte edit commutes with the tree edit.
- **Request-log reader** (`linereader.dfy`, `logparser.dfy`, `logspec.dfy`, `logsections.dfy`, `logreader.dfy`):
  a bounded line reader feeding a section machine, equal to a declarative reading of the log's lines as a whole.
- **Scanner** (`scanner.dfy`, `scanner_runs.dfy`, `scanner_outcomes.dfy`): passes over an abstract directory,
  with the trail of appends, unlinks and marks as the outside sees it.
- **Join and summary** (`join.dfy`, `join_exact.dfy`, `factsource.dfy`, `summary.dfy`, `summary_laws.dfy`,
  `summary_counts.dfy`): the session and counter match, the merge of stored and live facts, and the window's
  totals, timeline and dimensions.
- **Recorder queue and store** (`queue.dfy`, `queue_progress.dfy`, `store.dfy`): the lock-and-channel queue as
  interleaved atomic steps, and retention with a size cap.
- `common.dfy`, `text.dfy` and `textlaws.dfy` hold shared vocabulary.

Parameters stand for what is outside: the outcome of each file operation, the pages an upstream returns, the
clock, the JSON decoder of a response frame, the timestamp parser, and the YAML parser, which reports node
positions and keys.

## What the code does not keep

Each of these is stated with its exact condition, and at a concrete input.

- A section line whose two markers share their space, `=== ===`, makes the log parser slice out of range. It is
  the only such line (`LogParser.OneLinePanics`), and a file with it panics the parser wherever it stands
  (`LogSpec.RunIsMachineOf`).
- The guard's writer finds an entry by trimmed name over the whole list, while the guard reads only Cline
  entries. `RunnerLimits.DecisionTakesEffect` says exactly when a decision lands on another entry, and
  `RunnerLimits.ForeignEntryIsDisabled` shows another provider being disabled. Where names lead to the entry the
  guard reads (`Targeted`) no run touches a foreign entry (`RunnerLimits.NoForeignEntryTouched`).
- README.md:499 of the repository says a pending write is retried every tick. It is not: the file changes only
  for accounts a tick decides about (`RunnerFile.NeverRetried`, `RunnerFailures.PendingDisableWaits`). So the
  enabled floor is one of the guard's view. `RunnerFloor.FileAccount` gives the exact difference to the file,
  `RunnerFloor.FileFloorHolds` the runs in which the file keeps it too, and `RunnerFailures.NobodyIsLeftOn` a run
  that leaves the file with nobody enabled. Likewise an account that was decided on in time is enabled in the file
  if and only if that edit reached it (`RunnerFloor.FileTimeIsBounded`).
- Pending writes are lost at a restart. A lost disable is then taken for an operator's enable: exactly when, in
  `RunnerLimits.RestartForgetsPending`, and in a run without any operator in
  `RunnerScenarios.RestartInventsAnOperator`. A lost enable leaves its account off with nobody to turn it on:
  exactly when, in `RunnerStranded.FirstTickTakesCharge`, for good in `RunnerStranded.RestartStrands`, and in one
  run in `RunnerFailures.RestartStrandsTheAccount`.
- A crash between the saved state and the write of an enable does the same (`RunnerCrash.InterruptedEnableStrands`);
  `RunnerCrash.CrashIsRecovered` says exactly which entries that are off after a crash are owned again.
- A walk that stops early leaves a gap below the watermark which no later fetch fills, against the comment at
  internal/plan/official_usage.go:27-28. `CollectorGaps.RefinesExactly` says exactly when the records are the
  server's all the same, `CollectorGaps.GapsStay` that a gap is for good, and
  `CollectorGaps.TruncatedWalkLeavesGap` shows one. A window can be reported as covered and lack records:
  `WindowGaps.WindowTotalsExactly`, `WindowGaps.CoveredWithAGap`.
- A line inserted into a block mapping comes after the last line on which one of its nodes starts, not after the
  last line of the mapping, against the comment at internal/hostconf/accounts.go:241-243; a last value that runs
  on is cut (`ScalarInsert.InsertedInsideExactly`, `ScalarInsert.BlockScalarIsCut`).
- Replacing a scalar twice is not last-writer-wins after a quoted token that something other than a delimiter
  follows (`ScalarEdit.LastWriterWins`, `ScalarQuoted.SecondWriteTakesMore`), and a quoted scalar is replaced as
  a whole only when it stands on one line (`ScalarQuoted.QuotedTokenReplaced`, `ScalarQuoted.TwoLinesAreCut`).
- The flow-mapping scanner knows neither comments nor quotes inside plain scalars. Exactly when it still finds
  the brace: `FlowLimits.PlainQuotesExactly` and `FlowLimits.CommentExactly`, and for any bytes whatever
  `FlowModes.BraceFoundExactly`; concrete texts in `FlowLimits.ApostropheHidesTheBrace` and
  `FlowLimits.BraceInCommentEndsEarly`.
- The guard writes a consumed request down as its provider key, a separator and its id. Two requests of two
  accounts make one text when a key holds a separator (`GuardInputs.TextCollides`), and only then
  (`GuardInputs.TextTellsApart`); everywhere else the model keeps key and id apart.
- A fact that names a model or a pinned provider but neither a final nor a resolved provider is joined and
  counted as resolved, and its record shows no channel (`Join.JoinedChannel`, `SummaryLaws.JoinedWithoutChannel`).
- A record in an hour after the present one is in the totals and not in the timeline
  (`SummaryLaws.TimelineConserves`, `SummaryLaws.RecordAheadIsNotOnTheTimeline`).

## Model

| member | source | states |
|---|---|---|
| Guard.State.Advance | internal/guard/guard.go:165-195 | one round of the object leaves the memory and the decisions the round is specified to have: count when judging is allowed, then decide |
| Guard.State.Count | internal/guard/guard.go:275-321 | the loop over the joined samples folds them into streaks and the dedup ring as specified, whatever the batch |
| Guard.State.MarkSeen | internal/guard/guard.go:488-505 | a token is consumed only if it is not in the ring, and the ring with its lookup stays the last 4096 tokens |
| Guard.State.Decide | internal/guard/guard.go:325-456 | the deciding loop with its running count of disables gives the specified decisions and slots |
| Guard.State.AdoptOwnership | internal/guard/guard.go:199-232 | claims and names exactly the accounts shown disabled, not owned, whose last audited action is a disable |
| Guard.UniqueAccountsDistinct | internal/guard/guard.go:537-552 | the round works on the first account of every non-empty provider key: keys distinct, nothing invented, no key lost |
| Guard.AdoptionKeeps | internal/guard/guard.go:199-232 | adoption only adds claims: what was owned stays owned |
| GuardRounds.RoundLeavesOthers | internal/guard/guard.go:325-456 | at most one decision per provider key in a round; the ring and every account that is not listed stay as they were |
| GuardRounds.RoundSettles | internal/guard/guard.go:325-456 | each listed account ends as its own verdict says, judged on the memory the round began with and the headroom left by the accounts before it |
| GuardRounds.RoundOwnership | internal/guard/guard.go:345-456 | ownership, disable count and retry time change exactly through an announced decision; an enable clears the retry time, and the count falls only on enable_external |
| GuardRounds.EnabledFloor | internal/guard/guard.go:335-341 | after a round the in-scope accounts enabled are at least min(enabled before, minEnabled), with one decision per key at most |
| GuardRounds.BackoffDoubles | internal/guard/guard.go:462-472 | the arithmetic of the backoff: b(1) = min(R, M), b(n+1) = min(2 b(n), M), never shrinking and never above M |
| GuardBackoff.FirstDisableLasts | internal/guard/guard.go:434-472 | an account disabled for the first time gets a retry time min(R, M) minutes after the round, and none exactly when R is 0, read off the memory after the round |
| GuardBackoff.NextDisableLastsTwiceAsLong | internal/guard/guard.go:434-472 | of two disables under the same options, in any rounds, the one that leaves the count next to the other's lasts min(2 x the first, M minutes) |
| GuardBackoff.NoRetryTimeWaits | internal/guard/guard.go:353-372 | an owned account shown disabled without a retry time is decided about in no round and stays as it is |
| GuardBackoff.TakenOverExactly | internal/guard/guard.go:199-232 | an account of the list changes hands if and only if it is shown disabled, was not owned and its last audited action is a disable |
| GuardBackoff.NamesAreTaken | internal/guard/guard.go:199-232 | the names reported are those of the accounts that changed hands, in order |
| GuardBackoff.TakenOverRetries | internal/guard/guard.go:199-232 | an account taken over without a counted disable gets a retry time min(R, M) minutes later, and none exactly when R is 0; a count it has is kept |
| GuardBackoff.TakenOverAsDisabled | internal/guard/guard.go:199-232 | an account taken over with a count waits as long as a disable that left that count |
| GuardInputs.DefaultsFillIn | internal/guard/guard.go:241-256 | configured values stay, missing ones become 3, 1, 5 and 360 |
| GuardInputs.ScopeExactly | internal/guard/guard.go:258-273 | a scope without any name is every account, otherwise exactly the accounts named in it, trimmed and in any case |
| GuardInputs.TokensTellApart | internal/guard/guard.go:523-529 | two samples are one consumption if and only if they are of one account with the same trimmed request id, or both without one and at the same time |
| GuardInputs.TextTellsApart | internal/guard/guard.go:523-529 | the text of a token tells tokens apart when no key holds a separator |
| GuardInputs.TextCollides | internal/guard/guard.go:523-529 | limit: two keys with a separator and two request ids that make one text |
| GuardRounds.RetryDecides | internal/guard/guard.go:353-397 | an owned account shown disabled is enabled in the first round at or after its retry time and in none before, whatever switch, baseline, dry run and scope say |
| GuardRounds.CountingKeepsOwnership | internal/guard/guard.go:275-321 | counting touches streaks only |
| GuardRounds.DryRunIsInert | internal/guard/guard.go:410-432 | with dry run on no round emits disable or gains an account |
| GuardHistory.EveryRunSound | internal/guard/guard.go:275-321 | in every run: the ring is the last 4096 consumed tokens, no token is consumed again with fewer than 4096 others in between, the streak is the number of off-baseline requests since the last clear and the channels are its last five, and a dry-run report is not repeated before the streak was cleared |
| GuardHistory.CountConsumes | internal/guard/guard.go:275-321 | after a batch the token of every sample of a listed account that carries a channel has been consumed |
| GuardHistory.RingHit | internal/guard/guard.go:488-505 | a token consumed within the last 4096 consumptions is still in the ring |
| GuardHistory.DryRunReportsWhenDue | internal/guard/guard.go:410-432 | in any dry run an account is reported if and only if it is judged, its off-baseline requests since the last clear reached the threshold, however far past it, and it was not reported since |
| GuardHistory.DisablesWhenDue | internal/guard/guard.go:406-456 | outside dry run an enabled account the guard does not own is disabled if and only if it is judged, its off-baseline requests since the last clear reached the threshold and more accounts than the floor are still enabled at its turn; the decision carries that count and the last five channels |
| Runner.GuardRunner.TickOnce | internal/plugin/accountguard.go:170-197 | one tick of the runner object leaves the world the tick is specified to leave: read, reconcile, round, record and apply each decision, save |
| Runner.GuardRunner.ReconcileOwnership | internal/plugin/accountguard.go:241-275 | runs once per runner, on the accounts the state does not already own, from the last part of the audit trail |
| Runner.GuardRunner.Record | internal/plugin/accountguard.go:394-409 | the decision is appended to the trail when the append succeeds and kept in memory either way |
| Runner.GuardRunner.Apply | internal/plugin/accountguard.go:413-466 | edit, write and read back under every outcome of the outside: either the wanted value stays pending or nothing is pending and the file says it |
| Runner.GuardRunner.MaybeSave | internal/plugin/accountguard.go:539-556 | a state is saved after decisions or when the last save is old, and a failed save still counts as the last |
| RunnerCheckpoints.RecentAreTheLast | internal/plugin/accountguard.go:394-409 | whatever happens around it, a runner shows the last ten decisions it made |
| RunnerCheckpoints.SavesExactly | internal/plugin/accountguard.go:539-556 | a readable tick saves if and only if it decided anything, this runner has not saved yet, or the last save is fifteen seconds old |
| RunnerCheckpoints.SavedRecently | internal/plugin/accountguard.go:537-556 | no save is fifteen seconds old after a readable tick, and a new runner saves at its first |
| RunnerOwnership.ProviderKeyNormal | internal/hostconf/accounts.go:57-69 | a provider key is never empty and already normalized, so the runner and the guard mean the same account |
| RunnerOwnership.SuffixClaimsLess | internal/guard/guard.go:199-232 | reading only a suffix of the trail never claims an account the whole trail would not |
| RunnerOwnership.RoundFollowsTrail | internal/guard/guard.go:345-456 | a round moves ownership exactly as its decisions move the audit trail |
| RunnerOwnership.TickShape | internal/plugin/accountguard.go:170-197 | a readable tick whose appends succeed leaves the round memory and extends the trail by the round decisions |
| RunnerOwnership.OwnershipIsBacked | internal/plugin/accountguard.go:170-275 | over any run with operator edits, failed writes, restarts and lost states the guard owns nothing whose last audited action is not a disable |
| RunnerOwnership.OwnershipMatchesAudit | internal/plugin/accountguard.go:170-275 | over any run without a lost state an account is owned exactly when its last audited action is a disable |
| RunnerOwnership.LiveOwnershipMatchesAudit | internal/plugin/accountguard.go:170-275 | in one runner's life the same holds of the live state even when saves fail and the state file is lost |
| RunnerOwnership.ReconcileExactly | internal/plugin/accountguard.go:241-275 | after the first reconciliation exactly the accounts are owned that were, or that the read part of the trail says and the file shows disabled |
| RunnerOwnership.LostStateIsRecovered | internal/plugin/accountguard.go:241-275 | after the state is lost, reconciliation re-claims only previously owned accounts the file still shows disabled, and all of them when the trail is no longer than the part read |
| RunnerOwnership.RunSchedules | internal/plugin/accountguard.go:170-197 | every owned account of a run has a retry time at most M minutes after its last audited disable |
| RunnerOwnership.DisableTimeIsBounded | internal/guard/guard.go:353-397 | by the first readable tick M minutes after its disable the guard has decided to enable an owned account that is still listed and shown disabled, recorded it and given the account up |
| RunnerFloor.FileTimeIsBounded | internal/plugin/accountguard.go:413-466 | after that tick the entry in the file says enabled if and only if it did before or the edit reached the disk |
| RunnerOverlay.AppliedShows | internal/plugin/accountguard.go:413-466 | however the reads and writes go, the guard sees the account as decided and every other account as before |
| RunnerOverlay.CarriedShows | internal/plugin/accountguard.go:170-197 | carrying a round out shows each account as the round decided |
| RunnerOverlay.TickShows | internal/plugin/accountguard.go:201-225 | one tick moves the shown accounts exactly as its round decides, and only appends to the trail |
| RunnerOverlay.TickSteady | internal/plugin/accountguard.go:413-482 | a tick keeps shown-disabled equal to owned for every account where it held, and records no enable_external |
| RunnerOverlay.NoFalseOperator | internal/plugin/accountguard.go:413-482 | over any number of ticks in one runner with arbitrary failures no enable_external is recorded and accounts that began enabled show disabled exactly when owned |
| RunnerOverlay.StartSteady | internal/plugin/accountguard.go:107-132 | a fresh installation satisfies the hypothesis of the run results |
| RunnerOverlay.FloorHoldsForever | internal/guard/guard.go:434-454 | over any run with fixed options and no operator edits the enabled in-scope accounts never fall below min(initial, minEnabled) in the guard view |
| RunnerFile.TickWrites | internal/plugin/accountguard.go:413-466 | what a tick writes, for every entry: the first entry of a decided key takes the setting its decision wants when the edit reaches the disk and can be made, and every other entry and every other pending write stays as it was |
| RunnerFile.NeverRetried | internal/plugin/accountguard.go:170-197 | limit: an entry, and a write pending for it, change in no tick that does not decide about its key |
| RunnerFile.EnableHangsExactly | internal/plugin/accountguard.go:413-466 | an entry says off with its enable pending if and only if it said off before and the edit did not reach the disk |
| RunnerFloor.FileAccount | internal/plugin/accountguard.go:201-225 | limit, exactly: the in-scope accounts the file has enabled are those the guard is shown enabled, plus pending disables and minus pending enables the file lacks |
| RunnerFloor.FileFloorHolds | internal/guard/guard.go:434-454 | over any run with fixed options and no operator edits in which every enable reaches the disk the file itself keeps min(initial, minEnabled) in-scope accounts enabled, whatever else fails |
| RunnerFailures.NobodyIsLeftOn | internal/guard/guard.go:434-454 | limit, in one run: with minEnabled 1 a failed enable of one account and a disable of the other leave the file with none enabled, while the guard is shown one |
| RunnerFailures.PendingDisableWaits | internal/plugin/accountguard.go:170-197 | limit, in one run: the tick after a disable that was not written decides nothing, and the file and the pending write stay as they are |
| RunnerLimits.NoForeignEntryTouched | internal/plugin/accountguard.go:413-466 | where names lead the writer to the entry the guard reads, no run of ticks, whatever fails, changes anything but the disabled setting of entries the guard looks after |
| RunnerLimits.DecisionTakesEffect | internal/plugin/accountguard.go:413-482 | when every call succeeds the one entry that can change is the first of that trimmed name, and it changes exactly when its setting can be written; the guard is not shown its decision if and only if that entry is another one and says the wanted value, or takes it and the file then reads back as wanted under the exact name; then nothing is pending |
| RunnerLimits.TargetedIsNotAstray | internal/plugin/accountguard.go:413-466 | where names lead the writer to the entry the guard reads no decision leads astray |
| RunnerLimits.ForeignEntryIsDisabled | internal/hostconf/accounts.go:122-161 | limit, on one list: an earlier entry of another provider with the same name is disabled instead, the account stays on and nothing is pending |
| RunnerLimits.TakenBackExactly | internal/guard/guard.go:377-398 | a round emits enable_external for an account if and only if the guard owns it and it shows enabled |
| RunnerLimits.RestartForgetsPending | internal/plugin/accountguard.go:85-104 | limit, exactly: the first readable tick after a restart takes an account for enabled by hand if and only if its file entry says enabled and the stored state owns it, or the trail claims it for a disabled entry of the same key |
| RunnerScenarios.RestartInventsAnOperator | internal/plugin/accountguard.go:413-466 | limit, in one run from a fresh installation without operator edits: a disable whose write fails, a restart, and a tick that records enable_external |
| RunnerScenarios.DisabledThenReleased | internal/guard/guard.go:353-397 | one run in which an account is disabled and enabled again when the longest backoff is up |
| RunnerStranded.FirstTickTakesCharge | internal/plugin/accountguard.go:241-275 | the first readable tick of a new runner owns or decides about an account that is off in the file if and only if the stored state owns it or the part of the trail it reads ends with its disable |
| RunnerStranded.RestartStrands | internal/plugin/accountguard.go:226-240 | limit: an account that is off and that this tick does not take charge of stays off through any further ticks |
| RunnerStranded.StrandedStays | internal/guard/guard.go:345-376 | an account shown off that nobody owns after the reconciliation is never owned, decided about or written |
| RunnerFailures.RestartStrandsTheAccount | internal/plugin/accountguard.go:413-466 | limit, in one run from a fresh installation: a written disable, an enable whose write fails, a restart, and the account is off and not owned after any further ticks |
| RunnerCrash.CrashIsRecovered | internal/plugin/accountguard.go:413-466 | after a crash at any audit line, saved state or write of a tick the next runner owns an entry that is off, whether the tick turned it off or not, if and only if the state saved last owns it or the trail it reads ends with its disable; so it owns whatever the tick turned off or meant to |
| RunnerCrash.InterruptedEnableStrands | internal/plugin/accountguard.go:437-446 | limit: an enable interrupted between its saved state and its write leaves the entry off and not owned through the whole life of the next runner |
| RunnerScenarios.CrashAfterTheWrite | internal/plugin/accountguard.go:413-466 | one such run: the state is not saved, the runner dies right after the write, and the next one owns the account |
| Collector.ScanItems | internal/plan/official_usage.go:466-490 | the loop over one page collects what the specified scan collects |
| Collector.WalkAll | internal/plan/official_usage.go:446-499 | the paging loop ends with the specified walk under its page budget |
| Collector.InsertionSort | internal/plan/official_usage.go:513 | the list is sorted in place, newest first, equal times in their old order |
| Collector.OfficialUsageCollector.Fetch | internal/plan/official_usage.go:410-526 | a fetch moves the collector to the specified state for every sequence of replies, truncated and failed ones included |
| Collector.OfficialUsageCollector.Prune | internal/plan/official_usage.go:550-562 | the in-place filter keeps the records not before the cutoff and forgets the ids found past the kept count |
| Collector.OfficialUsageCollector.NoteFailure | internal/plan/official_usage.go:530-547 | counts the failure and sets the retry time |
| CollectorRefines.EveryStateWellKept | internal/plan/official_usage.go:500-515 | in every reachable state items are newest first, ids distinct, and the seen set is exactly the retained ids |
| CollectorRefines.PruneForgetsTheDropped | internal/plan/official_usage.go:550-562 | with distinct ids the prune forgets the ids of the dropped records if and only if the kept records are a prefix |
| CollectorRefines.WalkCovers | internal/plan/official_usage.go:446-499 | a walk that ended full and without error collected or knew every wanted record of the server list, and collected nothing else |
| CollectorWalk.FetchIsCleanExactly | internal/plan/official_usage.go:431-497 | under the default limits a walk ends clean if and only if one of the replies it may read is empty, the last one or meets the end: 5 replies when the retained records reach the edge 26 hours back, 60 when they do not or there are none |
| CollectorWalk.LaterRepliesDoNotMatter | internal/plan/official_usage.go:431-449 | no reply after the fifth changes a state that reaches the edge, none after the sixtieth or after the configured number any |
| CollectorWalk.WalkIsBounded | internal/plan/official_usage.go:242-247 | one walk collects at most the configured number of records, or 40000 |
| CollectorWalk.SixtyPagesRefine | internal/plan/official_usage.go:410-526 | replies that serve the server's list in at most 60 pages without a failure, with at most 40000 of its records inside the window, bring a state that does not reach the edge up to the list, except for what was behind before, and from nothing retained always |
| CollectorWalk.RetainedAsServed | internal/plan/official_usage.go:265-289 | every record retained after any fetches is one that a reply held, field by field |
| CollectorRefines.CleanFetchExactly | internal/plan/official_usage.go:410-526 | a clean walk of a list brings the retained records up to it if and only if no record inside the retention window was missing behind the watermark |
| CollectorRefines.FetchRefines | internal/plan/official_usage.go:410-526 | in a state that already refines an older list nothing is missing there, so one clean fetch carries the refinement to the grown list and the new retention edge |
| CollectorRefines.PagingRefinesTheServer | internal/plan/official_usage.go:410-526 | after every fetch of a history whose walks ended clean or failed empty-handed, the retained records are exactly the readable records of the server at the last clean walk newer than the cutoff then, the cutoff itself going either way; before the first clean walk nothing is retained |
| CollectorGaps.GapsStay | internal/plan/official_usage.go:446-499 | limit: a record not retained while one at least as new is will not be retained after any later fetches, whatever the upstream answers |
| CollectorGaps.RetainedExactly | internal/plan/official_usage.go:446-499 | after a clean walk in a history with any truncated and failed walks a server record inside the retention window is retained if and only if no fetch before left it behind the watermark |
| CollectorGaps.RefinesExactly | internal/plan/official_usage.go:446-499 | limit, exactly: after such a history the records are the server records of the retention window if and only if none of them was ever left behind |
| CollectorGaps.CleanLeavesNothingBehind | internal/plan/official_usage.go:446-499 | a clean history leaves none behind |
| CollectorGaps.TruncatedWalkLeavesGap | internal/plan/official_usage.go:446-499 | limit, on one walk: a budget of one page over two pages leaves the older record out for good |
| CollectorGaps.WholePageLeavesNone | internal/plan/official_usage.go:446-499 | the same list on one page is a clean walk, and both records are retained |
| CollectorRefines.FailureBacksOff | internal/plan/official_usage.go:530-579 | after a failed walk nothing is due before the backoff, which doubles from the interval up to sixteen times it and stays capped |
| CollectorWalk.FirstFailureWaits | internal/plan/official_usage.go:530-547 | the first failed walk puts the next one off by the interval, ten minutes when none is configured, half an hour at most |
| CollectorWalk.NextFailureWaits | internal/plan/official_usage.go:530-547 | a failed walk after another puts the next one off twice as long up to the fifth, half an hour at most |
| Aggregate.WindowOf | internal/plan/official_usage.go:590-666 | the accumulating loop gives a window whose totals, buckets and rows are the sums over the records at or after its start |
| Aggregate.AddRow | internal/plan/official_usage.go:299-320 | a record changes exactly the row of its provider and model |
| Aggregate.BucketsAddUp | internal/plan/official_usage.go:619-655 | bucket sums of requests, tokens and cached tokens equal the window totals, for every additive number and every record |
| Aggregate.RowsAddUp | internal/plan/official_usage.go:299-320 | the per-model rows sum to the window totals |
| Aggregate.BucketContains | internal/plan/official_usage.go:644-651 | a record lands in the bucket that contains its time, the end of the window in the last |
| Aggregate.LongerWindowHasMore | internal/plan/official_usage.go:590-666 | with non-negative counters every total of the shorter window is at most that of the longer |
| WindowCounts.SumNumbers | internal/plan/official_usage.go:630-643 | each number of a window, a bucket or a row is the sum of the records' own under that name |
| WindowCounts.SumCounts | internal/plan/official_usage.go:630-643 | requests, own-key and streamed are numbers of records |
| WindowCounts.HourlyBucket | internal/plan/official_usage.go:203-206 | the hour is drawn in 12 buckets of five minutes, the last without an end |
| WindowCounts.DailyBucket | internal/plan/official_usage.go:203-206 | the day is drawn in 24 buckets of an hour, the last without an end |
| WindowCounts.SeriesAddUp | internal/plan/official_usage.go:644-654 | the three series as returned add up to the totals as returned |
| WindowCounts.TableAddsUp | internal/plan/official_usage.go:299-322 | the table has a row exactly for what occurs in the window, and its rows add up to the totals |
| WindowCounts.CoveredExactly | internal/plan/official_usage.go:618-624 | a window is covered if and only if the account is not older than it or a retained record is not newer than its start |
| Aggregate.WindowEqualsServer | internal/plan/official_usage.go:590-666 | after a clean history whose last walk succeeded the page windows have exactly the totals of the server records in them |
| WindowGaps.WindowExactly | internal/plan/official_usage.go:590-666 | the totals of a window over retained records equal those over the server records if and only if no server record in the window is missing |
| WindowGaps.WindowTotalsExactly | internal/plan/official_usage.go:590-666 | after a clean walk in any history the window totals are the server totals if and only if no record in the window was ever left behind, covered or not |
| WindowGaps.CoveredWithAGap | internal/plan/official_usage.go:618-624 | limit, on one history: a window reported as covered whose totals are not those of the server |
| ByteText.JoinedLines | internal/hostconf/accounts.go:223 | joining the lines of a text gives the text back |
| ByteText.LinesOfJoined | internal/hostconf/accounts.go:238 | splitting is the inverse of joining for every sequence of lines |
| ByteText.ColumnOffset | internal/hostconf/accounts.go:296-309 | the column in characters is decoded rune by rune to a byte offset, or refused |
| ByteText.ColumnPrefix | internal/hostconf/accounts.go:296-309 | a column keeps its offset when only ASCII replaces what follows it |
| ByteLaws.ColumnIsCharacter | internal/hostconf/accounts.go:291-310 | in a line of characters encoded after RFC 3629 the n-th column is where the n-th character begins |
| ByteLaws.OnlyCharacters | internal/hostconf/accounts.go:291-310 | more than one byte is taken as one character only when they encode one |
| ByteText.OffsetOf | internal/hostconf/pluginconfig.go:125-140 | line and column give the byte offset in the whole file, or none |
| ScalarEdit.TokenEnd | internal/hostconf/accounts.go:314-345 | the loops over the line give the specified end of the token |
| ScalarQuoted.StopIsBehindTheQuote | internal/hostconf/accounts.go:317-337 | the quote scan of the scalar replacer and that of the defaults editor end at the same quote, on every text |
| ScalarQuoted.QuotedTokenReplaced | internal/hostconf/accounts.go:219-239 | replacing in prefix + print(quoted scalar) + suffix gives prefix + literal + suffix if and only if no line feed is inside the quotes |
| ScalarQuoted.SecondWriteTakesMore | internal/hostconf/accounts.go:219-239 | limit, on one text: in `"a"b` the second of two writes to the quoted scalar takes the `b` with it |
| ScalarQuoted.TwoLinesAreCut | internal/hostconf/accounts.go:219-239 | limit, on one scalar: quotes around a line feed are not replaced as a whole |
| ScalarEdit.ReplaceScalar | internal/hostconf/accounts.go:219-239 | the output is the input with exactly the bytes of one token exchanged, or a refusal |
| ScalarEdit.PlainLimit | internal/hostconf/accounts.go:338-344 | an unquoted token runs to the first delimiter of the whole file |
| ScalarEdit.PlainTokenIsBounded | internal/hostconf/accounts.go:338-344 | after an unquoted token stands a delimiter or the end |
| ScalarEdit.SamePlace | internal/hostconf/accounts.go:219-239 | after a replacement the position still means the same place |
| ScalarEdit.LastWriterWins | internal/hostconf/accounts.go:219-239 | replacing by a and then by b equals replacing by b if and only if the byte after the original token is a delimiter or the end |
| ScalarEdit.FlipTwiceRestores | internal/hostconf/accounts.go:122-161 | flipping a plain token and flipping it back restores the file byte for byte |
| ScalarEdit.MaxLine | internal/hostconf/accounts.go:280-291 | the recursive scan gives the greatest line of the subtree |
| ScalarEdit.NothingBelow | internal/hostconf/accounts.go:280-291 | no descendant of the mapping starts below the insertion point |
| ScalarEdit.GreatestIsTaken | internal/hostconf/accounts.go:280-291 | some descendant starts on that line |
| ScalarInsert.InsertedInsideExactly | internal/hostconf/accounts.go:242-277 | limit, exactly: a node of the mapping keeps its text in one piece, with the new line behind it, if and only if it ends by the last line on which a node of the mapping starts |
| ScalarInsert.BlockScalarIsCut | internal/hostconf/accounts.go:242-277 | limit, on one text: the new line lands between the header of a block scalar and its text |
| ScalarEdit.InsertMappingKey | internal/hostconf/accounts.go:244-277 | the loop writes the lines with the new one after the last line of the mapping |
| ScalarLine.InsertedUnderTheFirstKey | internal/hostconf/accounts.go:241-281 | the new line is exactly column - 1 spaces, the key, a colon and a space, the literal and a line feed, byte by byte, behind the mapping's last line; the first key's column of it is where the new key begins |
| ScalarEdit.InsertedLineOnly | internal/hostconf/accounts.go:244-277 | the result has exactly one more line, or gains the missing final line feed and that line; without it the input is back |
| FlowText.SkipQuotedScalar | internal/hostconf/pluginconfig.go:194-212 | the loop finds the specified closing quote |
| FlowText.FlowMappingEnd | internal/hostconf/pluginconfig.go:173-191 | the depth loop finds the specified closing brace |
| FlowText.InsertFlowMappingKey | internal/hostconf/pluginconfig.go:124-168 | the entry goes in right before the closing brace with the separator the mapping needs, or the edit is refused |
| FlowBytes.PlainMappingGains | internal/hostconf/pluginconfig.go:124-170 | by the numbers of the bytes: a mapping of plain bytes gains the entry right before its brace, behind nothing, a space, or a comma and a space |
| FlowBytes.QuotedIsPassed | internal/hostconf/pluginconfig.go:194-212 | a quoted scalar is passed as a whole, whatever it holds |
| FlowText.PluginConfigDefaults | internal/hostconf/pluginconfig.go:53-94 | the defaults are added one after another against a fresh parse, all or nothing |
| FlowDefaults.TrimLeavesTheCore | internal/hostconf/pluginconfig.go:64-66 | trimming leaves the slice with solid ends around which there is only white space |
| FlowDefaults.EntryIsWritten | internal/hostconf/pluginconfig.go:124-170 | the entry is written as a quoted key with its quotes and backslashes escaped, a colon, a space and the literal, by the numbers of the bytes |
| FlowDefaults.SolidDefaultIsInserted | internal/hostconf/pluginconfig.go:63-92 | in any block a default with a byte that is not white space in its key and in its literal is inserted under the stripped key unless that key is there |
| FlowDefaults.SolidDefaultIsALine | internal/hostconf/pluginconfig.go:63-92 | in a block of lines such a default becomes a line of its own, as far in as the block's first key |
| FlowDefaults.BlankDefaultIsNothing | internal/hostconf/pluginconfig.go:63-67 | in any block a default with nothing but white space in its key or its literal makes no difference |
| FlowDefaults.SolidDefaultIsThere | internal/hostconf/pluginconfig.go:53-96 | in a flow mapping the stripped key of every such default is among the names in the end |
| FlowDefaults.FirstOfItsNameIsAdded | internal/hostconf/pluginconfig.go:53-96 | the first default of a name the mapping lacks brings in its own value |
| FlowModes.ScannerIsPlain | internal/hostconf/pluginconfig.go:173-212 | the scanner that jumps over quoted scalars finds what a byte-by-byte scan with a quote mode finds, on every text |
| FlowModes.BraceFoundExactly | internal/hostconf/pluginconfig.go:173-191 | for any bytes between two braces the second is the one found if and only if no brace between them closes the first and behind them no quote is open and no bracket but the first |
| FlowAst.ValuePasses | internal/hostconf/pluginconfig.go:173-212 | inside any bracket the scanner passes every printed value (nested collections, both quotings, plain scalars whose quotes close) at unchanged depth |
| FlowAst.DoubleEnds | internal/hostconf/pluginconfig.go:194-212 | the scan of a double-quoted scalar ends at its own closing quote, escapes included |
| FlowAst.SingleEnds | internal/hostconf/pluginconfig.go:194-212 | the scan of a single-quoted scalar ends at its own closing quote, doubled quotes included |
| FlowAst.BraceFound | internal/hostconf/pluginconfig.go:173-191 | for every nested mapping, prefix and suffix the brace found is the last byte the printer wrote for it |
| FlowCommutes.SeparatorIsNeeded | internal/hostconf/pluginconfig.go:149-162 | empty, spaced and trailing-comma mappings get the separator their tree needs |
| FlowCommutes.AppendedEntries | internal/hostconf/pluginconfig.go:122-168 | appending to the tree adds one entry after the others |
| FlowCommutes.InsertCommutes | internal/hostconf/pluginconfig.go:124-168 | inserting into the bytes of a printed mapping gives the bytes of the mapping with the entry appended |
| FlowCommutes.CompletedKeeps | internal/hostconf/pluginconfig.go:22-30 | afterwards no default is missing, the entries that were there are a prefix, and nothing changed unless a default was missing |
| FlowCommutes.FillCommutes | internal/hostconf/pluginconfig.go:53-94 | the whole loop on prefix + print(map) + suffix gives prefix + print(map with the missing entries appended in order) + suffix |
| FlowCommutes.FillIsIdempotent | internal/hostconf/pluginconfig.go:47-53 | filling the result again changes nothing |
| FlowLimits.PlainQuotesExactly | internal/hostconf/pluginconfig.go:177-178 | limit, exactly: with quotes anywhere in the plain scalars of a mapping its brace is found if and only if the quotes, read through the whole mapping, all close before it |
| FlowLimits.OnePlainQuotedExactly | internal/hostconf/pluginconfig.go:177-178 | limit, exactly: with one plain scalar holding quotes the brace is found if and only if the quotes of that scalar close |
| FlowLimits.ApostropheHidesTheBrace | internal/hostconf/pluginconfig.go:177-178 | `it's` leaves its quote open and `it's that's` does not |
| FlowLimits.CommentExactly | internal/hostconf/pluginconfig.go:173-191 | limit, exactly: with a comment without quotes before the closing brace it is found if and only if no brace of the comment brings the depth to nothing and the comment leaves no bracket open |
| FlowLimits.BraceInCommentEndsEarly | internal/hostconf/pluginconfig.go:173-191 | a comment with a closing brace is one that does |
| LineReading.LineReader.Next | internal/channellog/parse.go:92-108 | the buffered reads give the next line if it fits, or report it truncated without promising its bytes, and the reader is behind that line in either case |
| LogParser.OneLinePanics | internal/channellog/parse.go:312-321 | the slice of a section line is out of range on exactly one line, `=== ===` |
| LogParser.Parser.Line | internal/channellog/parse.go:154-167 | one line moves the section machine as specified; a response object exists exactly in a response section, so frames always have one to count in |
| LogParser.Parser.FrameLine | internal/channellog/parse.go:236-269 | a frame updates count, routing and counters of the open response as specified |
| LogParser.Parser.FinishFact | internal/channellog/parse.go:275-308 | the fact is materialised from the last answered section, or from the last one for the frame count |
| LogSpec.RunIsMachineOf | internal/channellog/parse.go:154-198 | after any lines the machine is what the lines say read as a whole, and it panics exactly when one of them is the bad one |
| LogSpec.ParserIsSpec | internal/channellog/parse.go:236-308 | the streaming fact is the declared one: channel, counters and frame count from the last response section with provider metadata, attempts the response plus error sections, fields from the last line naming them |
| LogSpec.UnreadLinesDoNotMatter | internal/channellog/parse.go:154-167 | outside INFO, HEADERS and RESPONSE a line that is no header can be replaced by another, or removed, without any effect |
| LogSections.HeaderLine | internal/channellog/parse.go:310-321 | a line of the two markers around a name with white space is the header of that name |
| LogSections.OnlyHeaderLines | internal/channellog/parse.go:310-321 | no other line is a header |
| LogSections.AnswerSection | internal/channellog/parse.go:154-181 | behind any lines, `=== API RESPONSE n ===` is one attempt and no error; a routing block in its frames gives the fact its channel, its counters and the number of its frames |
| LogSections.ChannellessSection | internal/channellog/parse.go:236-300 | without a routing block it is an attempt, and the answer found before stays |
| LogSections.ErrorSection | internal/channellog/parse.go:172-186 | `=== API ERROR RESPONSE ===` is one attempt and an error, and its lines give nothing |
| LogSections.OtherSection | internal/channellog/parse.go:323-336 | any section of another name leaves the fact as it was |
| LogSections.UnreadSections | internal/channellog/parse.go:323-336 | `=== REQUEST BODY ===`, `=== RESPONSE ===` and a response header without a number among them |
| LogSections.RequestSection | internal/channellog/parse.go:323-336 | `=== API REQUEST n ===` among them |
| LogSections.InfoSection | internal/channellog/parse.go:202-218 | `=== REQUEST INFO ===` gives path, method and time, each from the last line that says it, and nothing else |
| LogSections.HeadersSection | internal/channellog/parse.go:223-232 | `=== HEADERS ===` gives the session and the id in it from the last line that is the session header |
| LogSections.ValueExactly | internal/channellog/parse.go:350-363 | which line says a field: the name before the first colon, in any case |
| LogSections.SessionExactly | internal/channellog/parse.go:364-368 | which line is the session header: its ten letters in any case, with a dash or an underscore |
| LogSections.FrameLine | internal/channellog/parse.go:338-349 | which line is a frame: `data:` and a payload the decoder takes |
| LogSections.NoSections | internal/channellog/parse.go:275-300 | a log without a section gives the empty fact |
| LogReader.ParseLog | internal/channellog/parse.go:65-82 | the reading loop shows the parser exactly the lines that fit the buffer, up to the end or a read error |
| LogReader.ParseIsSpec | internal/channellog/parse.go:60-82 | a file gives the declared fact, or the panic when one of the lines shown is the bad one |
| LogReader.OverlongLinesDoNotMatter | internal/channellog/parse.go:60-64 | taking out a line longer than the buffer leaves everything the parser is shown as it was |
| Scanner.ChannelScanner.MarkSeen | internal/channellog/channellog.go:349-363 | the seen set and its keys after a mark, trimmed oldest first past the cap |
| Scanner.ChannelScanner.ScanFile | internal/channellog/channellog.go:498-548 | reading, storing and unlinking one file under every outcome, in the order the outside sees it |
| Scanner.ChannelScanner.ScanOnce | internal/channellog/channellog.go:404-495 | a pass leaves the specified state, the backlog included |
| ScannerRuns.EveryRunSound | internal/channellog/channellog.go:333-363 | after any passes: the seen set is the last files done with, a file is stored again only after at least 15001 later files, every unlink directly follows the append of the same file, Parsed = WithChannel + WithoutChannel = facts appended, and the ring is the newest facts |
| ScannerRuns.StoredAtMostOnce | internal/channellog/channellog.go:349-363 | two appends of one file lie more than 15001 marks apart, and nothing is unlinked that was not just appended |
| ScannerRuns.OnlyQuietWholeFilesAreStored | internal/channellog/channellog.go:423-548 | a fact is stored only from a regular log that was quiet for the minimum age, kept its listed size, was read to exactly that size and is not in the seen set, and only then may the log be unlinked |
| ScannerOutcomes.QuietWholeLogIsStored | internal/channellog/channellog.go:404-548 | conversely a quiet, unchanged, unseen log that reads whole is stored: the order of the append, the unlink and the mark, the ring and every counter |
| ScannerOutcomes.NotStored | internal/channellog/channellog.go:404-478 | what every other entry adds to the counters and the backlog |
| ScannerOutcomes.ReadingFails | internal/channellog/channellog.go:479-535 | a log that cannot be opened, read, closed or appended is a failure; one that grew is counted and noted as done |
| ScannerRuns.EveryCandidateCountsOnce | internal/channellog/channellog.go:423-491 | each regular log other than main.log adds exactly one to parsed, failed, young, growing and seen together |
| ScannerRuns.CountersAccount | internal/channellog/channellog.go:404-548 | over a run those counters add up to the candidates of all passes |
| Join.MatchBySession | internal/observation/join.go:131-155 | the loop returns the specified session match |
| Join.SessionIsClosest | internal/observation/join.go:131-155 | there is a session match exactly when a fact qualifies, and it is a closest one strictly inside two seconds |
| Join.MoreFactsMatchCloser | internal/observation/join.go:128-155 | more facts never lose a session match and never put it further away |
| Join.MatchByUsage | internal/observation/join.go:173-204 | the loop returns the specified counter match |
| Join.UsageIsUnique | internal/observation/join.go:173-204 | the counter match is f if and only if f is a candidate, occurs once and no other fact is a candidate |
| Join.UsageIgnoresOrder | internal/observation/join.go:173-204 | the counter match is the same for every order of the facts |
| Join.NoCountersNoMatch | internal/observation/join.go:167-176 | a record without counters has no candidate |
| Join.MatchIsAFact | internal/observation/join.go:121-126 | what is joined is one of the facts, names a channel, lies within five seconds, and is of the session when any fact is |
| JoinExact.SessionMatchExactly | internal/observation/join.go:131-155 | from the fields alone: the first of the closest facts that carry a session id the record's session contains, less than two seconds apart |
| JoinExact.UsageMatchExactly | internal/observation/join.go:173-207 | from the fields alone: the only fact with the record's counters, not both zero, at most five seconds apart |
| JoinExact.SessionGoesFirst | internal/observation/join.go:121-126 | the counters decide only where no session matches |
| Join.JoinedChannel | internal/observation/join.go:213-232 | a joined record shows the final or else the resolved provider of its fact, so none at all when the fact names neither |
| SummaryLaws.JoinedWithoutChannel | internal/observation/aggregate.go:203-224 | limit, on one fact: its record is counted as resolved and shows no channel |
| FactSource.SortFactsNewestFirst | internal/observation/factsource.go:180-186 | the in-place sort gives the specified order |
| FactSource.MergeFacts | internal/observation/factsource.go:141-166 | the merging loops give the specified list |
| FactSource.ByNewestSorts | internal/observation/factsource.go:180-186 | the sorted list is newest first and a permutation |
| FactSource.MergeIsUnion | internal/observation/factsource.go:138-166 | two lists with distinct stored keys merge into one with distinct keys, newest first, and before the cap exactly the stored facts and the live ones not held yet |
| FactSource.CapDropsTheOldest | internal/observation/factsource.go:162-164 | what the cap drops is never newer than what it keeps |
| FactSource.HeldTwiceJoinsOnce | internal/observation/factsource.go:138-140 | a request both halves hold under one key is joined, not ambiguous |
| Summary.StoredNamesNoChannel | internal/observation/observation.go:298-322 | no record of the store carries a channel, and an old line keeps the credential it named |
| Summary.Summarise | internal/observation/aggregate.go:173-324 | the accumulating loop gives totals, timeline and dimensions that are sums over the joined records |
| Summary.Points | internal/observation/aggregate.go:310-322 | the timeline has exactly one point more than the window has hours |
| Summary.ProviderAccumulator.Add | internal/observation/aggregate.go:347-370 | a record goes into the row of its name, and an empty name into none |
| Summary.ProviderAccumulator.List | internal/observation/aggregate.go:373-387 | every row is listed once with its share of the dimension |
| Summary.WindowSplits | internal/observation/aggregate.go:203-224 | resolved + unresolved = records, and off-baseline and fallbacks are at most resolved |
| SummaryCounts.StoredExactly | internal/observation/observation.go:298-322 | the records the results range over: lines older than version 3, and lines of version 3 that name no channel |
| SummaryCounts.LoadedExactly | internal/observation/observation.go:298-322 | what reading an older line keeps and drops |
| SummaryCounts.TotalsCount | internal/observation/aggregate.go:203-224 | off-baseline is the number of records whose fact names a final or else a resolved provider that differs from a non-empty baseline, ignoring case; fallbacks those whose fact took more than one attempt; resolved, unresolved and failed likewise |
| SummaryCounts.NothingOff | internal/observation/aggregate.go:213-214 | nothing is off an empty baseline, nor when every channel is the baseline in some spelling |
| SummaryCounts.TotalsSum | internal/observation/aggregate.go:226-228 | the token counters are the sums of the records' own |
| SummaryCounts.PointCounts | internal/observation/aggregate.go:259-287 | each point of the timeline counts the records of its hour |
| SummaryCounts.TimelineCovers | internal/observation/aggregate.go:310-322 | the timeline runs from the hour the window starts in, 1, 24 or 168 hours ago, to the present one |
| SummaryCounts.ChannelRowCounts | internal/observation/aggregate.go:237-239 | a channel's row counts the records whose fact names it as the final provider |
| SummaryCounts.CredentialRowCounts | internal/observation/aggregate.go:233-236 | a credential's row counts the records that name it |
| SummaryLaws.TimelineHours | internal/observation/aggregate.go:310-322 | the points are the consecutive hours of the window, each once |
| SummaryLaws.TimelineConserves | internal/observation/aggregate.go:259-322 | each of the five timeline sums equals its total if and only if no record counted there lies in an hour after now |
| SummaryLaws.RecordAheadIsNotOnTheTimeline | internal/observation/aggregate.go:259-322 | limit, on one record an hour ahead: it is in the totals and on no point |
| SummaryLaws.WindowConserves | internal/observation/aggregate.go:259-322 | for records timed inside the window all five sums equal their totals |
| SummaryLaws.RowsAddUp | internal/observation/aggregate.go:347-370 | the rows of a dimension sum to what went into it |
| SummaryLaws.CredentialRowsSum | internal/observation/aggregate.go:233-236 | the credential rows sum to the records naming a credential, and none of them is off the baseline there |
| SummaryLaws.RatiosSumToOne | internal/observation/aggregate.go:373-387 | the ratios of a dimension with any row sum to one |
| SummaryLaws.Samples.Append | internal/observation/aggregate.go:405-417 | the shifting array holds the last 240 appended values that are not zero |
| SummaryLaws.SamplesAreTheLast | internal/observation/aggregate.go:405-417 | after any values the window is the last 240 of the measured ones, in append order |
| Queue.EveryRunSound | internal/observation/observation.go:423-457 | under every interleaving: Events = Queued + Dropped; Queued = sends in flight + undos pending + queue + append in flight + Written + WriteFailures; nothing sent is lost or reordered; flush marks are kept |
| Queue.AppendsInSendOrder | internal/observation/observation.go:574-595 | records reach the store in the order they were sent |
| Queue.AckedFlushCoversWhatWasSent | internal/observation/observation.go:597-626 | an acknowledged Flush has every record sent before its rendezvous appended and counted |
| Queue.QuietMeansAccounted | internal/observation/observation.go:423-457 | when nothing is in flight every event was written, failed or dropped |
| QueueProgress.NothingDropped | internal/observation/observation.go:423-457 | while the queue has room for one more of its 4096 records nothing is dropped |
| QueueProgress.QueueEmpties | internal/observation/observation.go:615-626 | however the appends go, the writer empties the queue in order and is back at what it did |
| QueueProgress.FlushCompletes | internal/observation/observation.go:597-626 | a Flush the writer met is acknowledged once the queue is empty, and the writer listens again |
| QueueProgress.StopCompletes | internal/observation/observation.go:574-632 | a stopping writer empties the queue before it goes |
| Store.Clean | internal/observation/store.go:198-239 | the loop that deletes from the slice it steps through leaves what retention and the cap are specified to leave, with the matching total |
| Store.RetentionIsExact | internal/observation/store.go:205-216 | retention removes exactly the removable files before the cutoff |
| Store.CapRemovesTheOldest | internal/observation/store.go:217-233 | the cap removes what can be removed from the front of the listing and no more than it has to |
| Store.YoungerStays | internal/observation/store.go:198-239 | with the listing sorted by age no file removed by the cap is younger than one it keeps from the cut on |
| Store.OverTheCapIsStuck | internal/observation/store.go:217-233 | over the limit at the end means nothing removable is left |

## Left out

- FlowText.EntryText: quotes keys of printable ASCII; the other escapes of Go's `%q` are not modelled.
- FlowAst.BraceFound: ranges over trees without comments whose plain scalars close the quotes they open and hold no bracket; the rest is in FlowModes.BraceFoundExactly.
- FlowCommutes.FillCommutes: takes the YAML parser to be right about the position and the keys of the mapping in each text it is shown, and literals to be printed values.
- ScalarEdit.LastWriterWins: takes the position as the parser gave it for the original file, and literals that are plain tokens.
- RunnerOverlay.NoFalseOperator: is about one runner's life and assumes names that lead the writer to the entry the guard reads, because without either the code does not keep it.
- RunnerCrash.CrashIsRecovered: assumes that audit appends succeed, that a file write either happens or does not, and names that lead the writer to the entry the guard reads.
- RunnerFloor.FileFloorHolds: is about one runner's life, as RunnerOverlay.NoFalseOperator is.
- RunnerOwnership.OwnershipMatchesAudit: assumes that audit appends and state saves succeed, because a restart after a failed save loses state; the code only logs a failed append. RunnerOwnership.LiveOwnershipMatchesAudit needs the appends alone.
- CollectorRefines.PagingRefinesTheServer: assumes that every walk so far ended full and without error or failed before it collected anything, because after any other one the code does not keep it.
- LineReading.LineReader.Next: promises nothing about the bytes of a line that does not fit; the source returns the start of its buffer, which later reads may overwrite, and drops it.
- Queue.EveryRunSound: the write buffer under the store, the flush ticker and the health snapshot are not steps; a record handed to the store counts as written when the store accepted it.
- Summary.ProviderAccumulator.Add: the cost and the latency samples of a row.
- Summary.ProviderAccumulator.List: the order of the rows and their percentiles.
- Summary.Summarise: costs, per-model rows, per-row and per-hour percentiles and the order of the rows.
- SummaryLaws.SamplesAreTheLast: samples are the last in the order they were appended, which is newest first, not the newest as internal/observation/aggregate.go:405-406 says.
- Scanner.ChannelScanner.ScanFile: a parse that panics is not an outcome here, the process would be gone; error texts and the pruning of expired fact files are not kept.
- Unicode: trimming, folding and lower-casing cover one-byte characters.
- 64-bit overflow of counters and durations, floating point, and Go's saturating time differences.
- The daily window and the channel table of the official usage, which fold records the same way as the windows modelled.
- The sorting of file names by date and the cap while loading fact files; facts are loaded lists here.
- Heartbeats, instance counting, published status, notices and reason texts of the guard runner.
- Several runners on one directory, which nothing in the code coordinates.
- The YAML and JSON libraries, the C ABI, HTTP clients, goroutine tickers, logging, and the management pages.
