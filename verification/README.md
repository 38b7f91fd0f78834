# Agent orchestrator: verified models

This project models the durable and concurrent core of the agent orchestrator daemon in
Dafny and proves what its design promises about it: across crashes every ended run gets
exactly one `terminal` notification and, when its error is fatal, at least one and at most two
`fatal_error` ones; concurrent follow-ups bind distinct accounts as long as no claim is lost;
a retried attempt leaves no trace in the log; readers that look through a window see what a
full read would; timers fire within their bounds; printers and parsers invert each other.
Where the code falls short of a promise, the model keeps the code's behaviour, a lemma shows
an input or schedule on which it fails, and another states exactly when it holds.

`dafny verify dfyconfig.toml` checks everything.

## How the models are built

A file write, or the code between two awaits, is one atomic step. Where operations
interleave, a module defines a state, its actions and `Run(schedule)`, the state after any
sequence of actions; actions that are not enabled do nothing, so every interleaving is a
schedule and every theorem over schedules is one over all interleavings. A crash is an
action that keeps the files and drops everything else. Objects that the program updates in
place are classes; their methods state the whole new state. Clocks, ULIDs, JSON and
classification are parameters.

| files | what they model |
|---|---|
| StoreProtocol, StoreSafety, StoreDelivery | the notification journal, counter and sentinels under every interleaving and crash |
| RunStore | the run store's operations write by write; a ghost schedule ties each write to a protocol step |
| FatalRepeats | how often a `fatal_error` record can repeat |
| NotificationIds, Cursor | padded ids, listings with cursors, acks under pruning, the push poller |
| JournalHistory, CompleteListings, LostCounter | exactly when paging over the store's schedules is complete, and a daemon's schedule on which it is not |
| Utf8, TailReader | UTF-8 decoding of cut windows and the doubling-window readers |
| EventLog | a run's event numbers, the lagging counter and its repair, paging |
| Rotation, AccountRegistry | promise-chain locks, the account picker, claims across restarts, registry updates |
| Interceptor | one worker attempt with its buffer, and the retry loop |
| Watchdog | the run timer |
| StatusMachine, StatusEngine, StatusRuns, StatusSnapshots, Registry | the debounced status engine as a state machine and as code, its runs, with the changing inputs it reads, the supervisor flags |
| FrameCodec, Secrets, ShellQuote, MonitorCommand, MonitorCursor, MonitorPermission | the printer and parser pairs, and the permission patterns |
| RotationHistory, Followup, Sessions | the capped history, what follow-ups inherit, session grouping |

## Where the code and its promises differ

- A run can have two `fatal_error` notifications, after a crash between the first one's append
  and its sentinel (`FatalRepeats.FatalTwice`, `FatalRepeats.FatalBound`).
- Paging can miss a record: after two crashes that lose counter writes and a prune of the runs
  that still showed the numbers, a new record gets an id below a client's cursor
  (`LostCounter.RecordIsMissed`; exactly when,
  `CompleteListings.ListingsCompleteIff`).
- Event numbers can repeat without a crash, because `readEventSummary` repairs the counter
  without the run lock (`EventLog.StaleRepairRepeats`, `EventLog.CrashFreeNumberingIff`). Pages
  then miss events at a page end (`EventLog.PagesCompleteIff`).
- `listNotifications` tests its limit after taking a record: a limit of 0 returns one.
- A rotation claim is lost when the meta update after `createRun` throws, and the next
  follow-up then binds the same account (`Rotation.LostClaimRepeats`, `Rotation.StaysDistinctIff`).
- A slot that is forgotten while its recomputation is suspended still announces and arms a
  timer (`StatusRuns.ForgottenAnnounces`, `StatusRuns.ForgetIsCleanIff`).
- A silent orchestrator is not announced as stale when a recomputation with an outdated snapshot
  finishes last, or when the scan of its stale tick fails (`StatusSnapshots.OvertakenStaysLive`,
  `StatusSnapshots.FailedTickStaysLive`, `StatusSnapshots.SilentIsStaleIff`).
- After one bad frame the reader's buffer is poisoned (`FrameCodec.ErrorIsSticky`), and the
  frames taken out by the failing call are lost to its caller (`FrameCodec.FrameReader.Push`).
- Secrets: values with U+2028 or U+2029 do not come back (`Secrets.SaveThenLoadIff`), and
  neither do files with lines ending in a carriage return (`Secrets.ParseSerializeIff`,
  `Secrets.ReturnUndoesSave`) or without entries (`Secrets.EmptyDoesNotRoundTrip`).
- The comment beside `quoteToken` says a supported path cannot be shadowed by the deny list;
  that holds for the metacharacter patterns only (`MonitorPermission.SupportedButDenied`).
- `truncated_count` is not cumulative through follow-ups (`RotationHistory.CountKeptIff`).
- A posture override is accepted again from the 1000th generation of a profile-mode chain on
  (`Followup.OverrideAcceptedIff`), as the source's comment on failing open admits.
- Runs on a parent cycle of two or more land in different sessions (`Sessions.FollowupSharesKeyIff`).

## Model

| member | source | states |
|---|---|---|
| StoreDelivery.JournalInOrder | src/runStore.ts:412-426 | At every instant of every schedule of creates, error reports, markTerminal, reconciliation, prunes and crashes (a crash may fall between any two file writes), the journal's sequence numbers are strictly increasing |
| StoreDelivery.NextSeqIsFresh | src/runStore.ts:755-762 | The next number is above every number in the journal, also when a crash left the counter file behind the journal |
| StoreDelivery.TerminalAtMostOnce | src/runStore.ts:402-434 | At every instant a run on disk has at most one `terminal` record, and none while it is running |
| FatalRepeats.RepeatsIff | src/runStore.ts:515-551 | Over every schedule: every append has its sentinel check before it, with the lock held since and no sentinel found, and it repeats a record exactly when the journal held one at that check |
| FatalRepeats.FatalBound | src/runStore.ts:515-551 | A run has at most one `fatal_error` record more than there were crashes between one of its own appends and the sentinel while it was still running |
| FatalRepeats.BoundIsReached | src/runStore.ts:515-551 | For every number of such crashes a schedule reaches that bound |
| FatalRepeats.CrashRepeats | src/runStore.ts:515-551 | After each such crash, on every schedule, the run can get another record: from the orphaning by the restarted daemon, and from another report, which may be cut off the same way |
| FatalRepeats.FatalAtMostTwice | src/processManager.ts:281-303 | When only the daemon life that created a run reports its errors, as the process manager does, it has at most two records, and one while no crash has passed |
| FatalRepeats.FatalTwice | src/orchestratorService.ts:1780-1791 | Two are reached by the daemon itself: report, crash after the append, restart with reconciliation, orphaning |
| StoreDelivery.DeliveredOnceSettled | src/runStore.ts:436-509 | Once reconciliation has passed a run and no operation works on it: exactly one `terminal` record when it is terminal, at least one `fatal_error` record when its error is fatal, and each sentinel names one of its records |
| StoreDelivery.PruneKeepsOthers | src/runStore.ts:681-706 | Pruning leaves the records of every other run, and their order, as they were |
| StoreSafety.RunIsSafe | src/runStore.ts:337-509 | The safety invariant (lock ownership, journal order, at most one terminal record, sentinels naming records) holds after every schedule |
| StoreSafety.AppendKeepsSafe | src/runStore.ts:412-425 | The journal append keeps the invariant although other operations search the journal without the lock |
| StoreSafety.PruneKeepsSafe | src/runStore.ts:684-706 | The journal rewrite keeps the invariant while reconciliation and appends are in flight |
| StoreSafety.LinkKeepsSafe | src/runStore.ts:427-431 | Writing a sentinel, also into a directory that was pruned meanwhile, keeps the invariant |
| StoreDelivery.RunIsCovered | src/runStore.ts:451-509 | Every notification still owed has an operation working on it, or reconciliation ahead of it, after every schedule |
| RunStoreModel.RunStore.CreateRun | src/runStore.ts:162-220 | The new directory is the only change, and the files stay those of the recorded schedule |
| RunStoreModel.RunStore.AppendNotificationIfNew | src/runStore.ts:402-434 | Writes nothing when the sentinel is there; otherwise appends one record with the next number, sets the counter and the sentinel; every write is the protocol's step |
| RunStoreModel.RunStore.MarkTerminal | src/runStore.ts:337-400 | Only the first call on a running run writes: its meta, then a `fatal_error` record when due and not yet recorded, then the `terminal` record, each with its sentinel; no other run changes |
| RunStoreModel.RunStore.ReconcileKind | src/runStore.ts:467-507 | Relinks a record that a crash left unlinked or appends the missing one; nothing when the sentinel is there |
| RunStoreModel.RunStore.ReconcileRun | src/runStore.ts:451-507 | One directory of the scan: skips running runs, changes no meta, and appends exactly what it counts as backfilled |
| RunStoreModel.RunStore.ReconcileTerminalNotifications | src/runStore.ts:436-509 | Afterwards every run on disk has its notifications; the journal grew by the backfilled counts; on a complete store it changes nothing |
| RunStoreModel.RunStore.PruneNotificationsForRuns | src/runStore.ts:681-730 | The journal is the old one without the deleted runs' records, and the count is what was removed |
| RunStoreModel.RunStore.PruneTerminalRuns | src/runStore.ts:900-928 | Matched directories and then their records go; every other run keeps its directory and its records in order |
| NotificationIds.RenderOrder | src/runStore.ts:109 | String order of padded ids is the order of sequence numbers, then of ULIDs, for all numbers of at most 20 digits |
| NotificationIds.RenderReads | src/runStore.ts:109 | An id is twenty digits that denote the sequence number, a dash and the ULID |
| Cursor.ListNotifications | src/runStore.ts:633-662 | Returns the first max(limit, 1) records past the cursor that the filters and acks admit |
| Cursor.ListIsFirstWanted | src/runStore.ts:633-662 | That listing is the first records, in order and as many as the limit but at least one, of a wanted run and kind, not acked when acked ones are hidden, with an id past the cursor |
| Cursor.SingleListing | src/runStore.ts:469 | The one-record listing that reconciliation uses finds the run's first record of the kind, or none |
| Cursor.OrderedIsIncreasing | src/runStore.ts:652 | A journal in sequence order is in id order, so comparing ids as strings pages it correctly |
| Cursor.PageIsInterval | src/runStore.ts:650-660 | A page holds every matching record between its cursor and its last record |
| Cursor.CollectedIncreasing | src/notificationPushPoller.ts:28-40 | What successive pages collect is in strictly increasing id order, so nothing comes twice, however the journal and the hidden acks change between pages |
| Cursor.CollectComplete | src/runStore.ts:633-662 | Over journals where every later record is an old one or has a larger id, paging until a short page returns every admitted record of the last journal |
| JournalHistory.EvolvesIff | src/runStore.ts:412-426 | Over every schedule of the store, crashes and prunes included, the journals change in that way exactly when every append's id exceeds every id appended before it |
| JournalHistory.IdsGrowIff | src/runStore.ts:755-762 | That is so exactly when, at every append, the counter file or the journal's last record is at most one behind the highest number ever appended |
| JournalHistory.CrashFreeInReach | src/runStore.ts:425-426 | Without a crash that guard always holds, whatever is pruned |
| JournalHistory.JournalIncreasing | src/runStore.ts:109 | At every moment of every schedule the journal is in string order of its ids |
| JournalHistory.ListingsComplete | src/runStore.ts:633-662 | A client that pages at any moments of a schedule meeting the guard has been given every record in the journal at its last page, once that page is short |
| CompleteListings.ListingsCompleteIff | src/runStore.ts:633-662 | For every limit of at least 1: every client, whatever it looks for and whenever it looks, has every record it admits once its page is short, exactly when the schedule meets the guard |
| CompleteListings.PollsCompleteIff | src/notificationPushPoller.ts:21-56 | The same exact condition for the listings of the push poller, 50 unacked records at a time from the beginning |
| CompleteListings.OutOfReachMisses | src/runStore.ts:755-762 | On every schedule with an append that fails the guard, and for every limit, a client that looks at two moments ends with a short page and misses a record |
| JournalHistory.PollSchedule | src/notificationPushPoller.ts:21-56 | The push poller over such a schedule, ticks with failing requests included, sends nothing twice, and after a listing of fewer than 50 records everything in its journal that no listing hid has been sent |
| LostCounter.RecordIsMissed | src/runStore.ts:755-762 | Two crashes lose the counter writes, reconciliation relinks, a prune removes both runs, and the next record reuses a number below a client's cursor: it is in the journal, the client's page is short, and it was never returned |
| Cursor.PruneKeepsListing | src/runStore.ts:681-729 | Pruning records together with their acks leaves every listing of other runs, acked shown or hidden, with any cursor and limit, as it was |
| Cursor.PushPoller.Begin | src/notificationPushPoller.ts:24-32 | A tick that finds another running does nothing, and asks from the last id seen otherwise |
| Cursor.PushPoller.Push | src/notificationPushPoller.ts:38-47 | The cursor becomes the id handed on; the ids handed on stay strictly increasing |
| Cursor.PushPoller.Receive | src/notificationPushPoller.ts:34-51 | Every record of the listing is handed on in order after everything sent before, and the cursor is the last of them |
| Cursor.Poll | src/notificationPushPoller.ts:21-56 | Over any ticks, of which some fail, the poller hands on exactly what the pages that came back collect, in order, and its cursor is theirs |
| Utf8.DecodeAtNewline | src/runStore.ts:795-800 | A newline byte ends whatever UTF-8 character was open: both sides decode on their own |
| Utf8.SplitDecode | src/runStore.ts:995-999 | Splitting the decoded text into lines is decoding the byte pieces, for all byte strings |
| Utf8.DecodeEncode | src/runStore.ts:793 | Decoding inverts UTF-8 encoding (RFC 3629, section 3) for every text of Unicode scalar values |
| Utf8.CutCharacter | src/runStore.ts:793 | A character that is cut short at the end decodes to one replacement character |
| TailReader.WindowShowsSuffix | src/runStore.ts:790-800 | Past its first line a window shows exactly the lines the file ends with, wherever it cuts a line or a character |
| TailReader.ReadRecentLines | src/runStore.ts:979-1008 | The doubling window returns as many lines as the limit, or all, and they are those the file ends with, for every content, limit and initial window; the full-read fallback is never reached |
| TailReader.ReadLastSeq | src/runStore.ts:776-818 | The doubling window returns the number of the last line that parses, no later one parsing, and 0 when none does |
| TailReader.LastParsedIsHighest | src/runStore.ts:776-818 | When numbers increase along the journal, that number is the maximum |
| TailReader.LogReadsBack | src/runStore.ts:425 | The lines of a file made of appended encodings are those encodings, decoded |
| TailReader.TextReadsBack | src/runStore.ts:995-999 | Lines of text appended in UTF-8, each with its newline, are the lines of the file, for all texts of Unicode scalar values |
| TailReader.LinesSelect | src/runStore.ts:995-999 | A file's lines are the non-empty pieces between newlines, each once and in order |
| TailReader.JournalSeqReadsBack | src/runStore.ts:776-818 | On the bytes that appends wrote the tail reader's number is the one the store protocol works with |
| EventLog.CrashFreeNumberingIff | src/runStore.ts:231-243 | Without a crash the log is numbered 1..n at every moment, and the counter is n whenever the run lock is free, exactly when no summary repairs the counter from an outdated look at the log while the lock is free |
| EventLog.StaleRepairRepeats | src/runStore.ts:874-898 | A summary that looks at the log between two writes of an append and repairs later makes a number repeat without any crash |
| EventLog.LockedRepairHeals | src/runStore.ts:236-240 | The same repair taken under the lock moves the counter back and is undone by the holder's own write |
| EventLog.OneBehindIff | src/runStore.ts:874-898 | With crashes, numbers never fall and the counter is at most one behind at every moment exactly when no repair comes from a look two numbers old and no append from a holder whose counter was moved back under it |
| EventLog.NumbersNeverFall | src/runStore.ts:874-898 | In particular when no repair moves the counter back, however many crashes |
| EventLog.SummaryRepairs | src/runStore.ts:318-335 | A summary read in one go leaves the counter equal to the last event's number |
| EventLog.ReadEventsPage | src/runStore.ts:930-956 | A page holds the first events past the start, where the next page begins, and whether there are more |
| EventLog.PageIsFirstPast | src/runStore.ts:930-956 | That page is exactly the first events numbered past the start, as many as the limit, says that there are more exactly when there are, and ends where the next begins |
| EventLog.PagesAreComplete | src/runStore.ts:930-956 | For increasing numbers, pages of any size concatenate to everything past the start |
| EventLog.GrowingPages | src/runStore.ts:930-956 | When the log grows between pages, the pages return the first events past the start, and all of them once a page says there is no more |
| EventLog.PagesCompleteIff | src/runStore.ts:930-956 | In a log whose numbers never fall, pages of any one size return all of it exactly when numbers are positive and no page ends between two events of one number |
| EventLog.SinglePagesCompleteIff | src/runStore.ts:930-956 | Reading one event a page returns the whole log exactly when its numbers strictly increase from at least 1 |
| Rotation.PickHealthyAccount | src/claude/accountRegistry.ts:537-552 | The first name of the priority list that is registered and not cooled down; without one, every registered name is in the cooldown summary |
| Rotation.PickIsFirstUsable | src/orchestratorService.ts:1122-1136 | In every reachable state: a follow-up is given the first account of the frozen list that is not the parent's, not claimed, registered and not cooled down, and is refused exactly when there is none |
| Rotation.OneAtATimeInOrder | src/orchestratorService.ts:1088-1099 | At most one follow-up of a parent is past the lock, and nobody who arrived earlier is still waiting |
| Rotation.LockNeverStuck | src/orchestratorService.ts:1101-1183 | Every exit path releases: while calls wait, one holds the lock or may take it |
| Rotation.RotationIsSafe | src/orchestratorService.ts:1072-1228 | Over all interleavings and restarts: rotated children use accounts of the frozen list other than the prior one, every claim in memory is on disk, and when no claim is lost the accounts are pairwise distinct |
| Rotation.PickRepeatsIff | src/orchestratorService.ts:1122-1129 | The next pick can be an account that a child already has, for some registry, exactly when some child on disk is missing from the claims in memory |
| Rotation.StaysDistinctIff | src/orchestratorService.ts:1072-1228 | After any schedule: every continuation that loses no claim, restarts included, keeps the accounts pairwise distinct exactly when they are so by now, no call has picked an account on disk, and every child on disk is in the claims, is about to be, or the claims are still to be rebuilt |
| Rotation.LostClaimRepeats | src/orchestratorService.ts:933-970 | A meta update that throws after createRun loses the claim, and the next follow-up binds the same account |
| AccountRegistry.ClearExpiredCooldowns | src/claude/accountRegistry.ts:433-455 | Each account keeps its place and is as it was, but that one whose cooldown has ended loses just the cooldown; the count is the number of those |
| AccountRegistry.UpdateKeepsOthers | src/claude/accountRegistry.ts:342-431 | Every update keeps names distinct and leaves each account it does not name as it was |
| AccountRegistry.UpdateOfNamed | src/claude/accountRegistry.ts:342-431 | What upsert, remove and cooldown leave for the account they name: registration time kept, cooldown and error reset by an upsert |
| AccountRegistry.UpdateInPlace | src/claude/accountRegistry.ts:342-431 | Place by place: an upsert changes a known account where it stands, keeping its registration time, and puts a new one at the end; a removal leaves exactly the others in order; a cooldown changes the one account |
| AccountRegistry.OneAtATimeInOrder | src/claude/accountRegistry.ts:176-194 | At most one update is inside, and it is the earliest arrival not yet served |
| AccountRegistry.NoLostUpdate | src/claude/accountRegistry.ts:342-455 | At every instant the file is the fold of the updates in arrival order; with nobody left it is the fold of all of them |
| AccountRegistry.VersionStays | src/claude/accountRegistry.ts:345-354 | Over every schedule a file of another schema version stays as it is, and a readable one readable |
| AccountRegistry.EntryIffWaiters | src/claude/accountRegistry.ts:189-193 | The lock map's entry exists exactly while some call has not left |
| AccountRegistry.LockNeverStuck | src/claude/accountRegistry.ts:176-194 | While calls are there, one of them can take its next step |
| AccountRegistry.NamesStayDistinct | src/claude/accountRegistry.ts:342-455 | Any sequence of updates keeps the names in the file distinct |
| Interceptor.Attempt.FlushBuffer | src/processManager.ts:320-323 | Hands over every buffered event once and empties the buffer |
| Interceptor.Attempt.InterceptorAborted | src/processManager.ts:312-355 | Aborts only on an event that asks for a retry; not aborting while still engaged means none did; what an earlier line decided stands |
| Interceptor.Attempt.OnLine | src/processManager.ts:361-375 | A line's events are accounted for: written, buffered or pending, unless the attempt is cancelled |
| Interceptor.Attempt.Continue | src/processManager.ts:535-544 | A resumed line hands over its next event, or none once the attempt is cancelled |
| Interceptor.Attempt.OnClose | src/processManager.ts:400-460 | Retries exactly when an event of the stdout so far asks for it and it and all before it came within the thresholds, having written nothing; finalizing has written each produced event exactly once |
| Interceptor.ExecuteAttempt | src/processManager.ts:143-463 | For every interleaving of lines, resumptions and stderr: the attempt ends in a retry exactly when some stdout event asks for one and it and all before it come within both thresholds; then nothing is written and the count is that event's position, and otherwise every produced event is written exactly once |
| Interceptor.Start | src/processManager.ts:95-141 | Two attempts exactly when the first one's stdout asks so, else one; the log is the first attempt's events, or the retry marker and the second attempt's |
| Watchdog.ArmRunTimer | src/orchestratorService.ts:1673-1713 | For every activity schedule: whatever the reason, cancellation comes less than 50 ms (plus timer lateness) after the idle deadline of the latest activity, unless that has passed at the start, and equally soon after the hard deadline; never before the deadline it names; the hard one has precedence; the loop ends |
| Watchdog.SilentRunIsCancelled | src/orchestratorService.ts:1673-1713 | A run quiet from some time on is cancelled within 50 ms (plus lateness) of that idle deadline, with a hard deadline or without, and of the hard one |
| StatusMachine.OneTimerOfEachKind | src/daemon/orchestratorStatus.ts:170-187 | Over every sequence of engine calls each slot has at most one pending and one stale timer outstanding |
| StatusMachine.AnnouncementsChain | src/daemon/orchestratorStatus.ts:258-263 | Over every sequence of engine calls a slot's consecutive announcements differ, and each names the state of the one before |
| StatusMachine.FinishedConcludes | src/daemon/orchestratorStatus.ts:54-81 | What a recomputation announces: `stale` exactly when the session ended, or 600 s have passed with nothing owned; else `attention` exactly when a failed run is unacknowledged; `in_progress` when one runs, or in a turn without a wait; `waiting_for_user` and `idle` likewise, with the counts of the snapshot |
| StatusEngine.Engine.ScheduleRecompute | src/daemon/orchestratorStatus.ts:170-179 | A burst of inputs shares one debounce timer, due 250 ms after the first |
| StatusEngine.Engine.Forget | src/daemon/orchestratorStatus.ts:182-187 | Both timers of the slot are cancelled and no other |
| StatusEngine.Engine.Fire | src/daemon/orchestratorStatus.ts:174-177 | A fired timer clears its own mark; a recomputation starts only for a registered orchestrator |
| StatusEngine.Engine.ResetStaleTimer | src/daemon/orchestratorStatus.ts:212-239 | A stale timer is armed exactly when staleness is possible and not reached, due 600 s after the last supervisor event |
| StatusEngine.Engine.FinishRecompute | src/daemon/orchestratorStatus.ts:241-268 | Announces exactly when (state, running, failed) changed, naming the previous state; the state is stated on the flags, counts and times; a stale timer is left exactly for a live session that owns nothing, has had an event and is not overdue; other slots are untouched |
| StatusRuns.ForgetIsCleanIff | src/daemon/orchestratorStatus.ts:182-187 | After a slot is forgotten no sequence of calls makes it announce or leaves a timer of it, exactly when no recomputation of it is suspended as it is forgotten |
| StatusRuns.ForgottenAnnounces | src/daemon/orchestratorStatus.ts:241-268 | A recomputation suspended across forget and re-registration has the same status announced twice, and the forgotten slot holds a stale timer |
| StatusRuns.StaleTimerStands | src/daemon/orchestratorStatus.ts:212-239 | Once the last recomputation of a live, unsuppressed slot saw an event, its stale timer stays outstanding, due 600 s after that event or at once, over every sequence of calls until the slot is recomputed or forgotten or the timer fires |
| StatusRuns.SilentBecomesStale | src/daemon/orchestratorStatus.ts:235-256 | Over every interleaving: that timer fires when due, and once a recomputation of the slot has finished with no newer event and nothing owned, the last announcement is `Stale`, no stale timer is left, and so it stays |
| StatusSnapshots.RestAnnounces | src/daemon/orchestratorStatus.ts:241-268 | Over every interleaving of changes, timers and recomputations that scan and finish in any order: once nothing is outstanding for a slot, unless its last scan failed, the last announcement is the final status of what the recomputation that finished last had read, stated on its flags and counts; that is the current one if none that ended had read later |
| StatusSnapshots.SilentIsStaleIff | src/daemon/orchestratorStatus.ts:212-256 | Then the announcement is `Stale` exactly when that recomputation saw an ended session, or an event and nothing owned |
| StatusSnapshots.OvertakenStaysLive | src/daemon/orchestratorStatus.ts:212-239 | A recomputation with an outdated snapshot that finishes last cancels the stale timer: 600 s later nothing is owned, nothing is outstanding, and the orchestrator is still announced as in progress |
| StatusSnapshots.FailedTickStaysLive | src/daemon/orchestratorStatus.ts:244-252 | When the scan that the stale timer starts fails, nothing is outstanding and the last announcement stays |
| Registry.OrchestratorRegistry.Register | src/daemon/orchestratorRegistry.ts:40-59 | Registering again keeps the turn flags, clears `session_ended` and the last event time; other entries are untouched |
| Registry.OrchestratorRegistry.ApplyEvent | src/daemon/orchestratorRegistry.ts:82-108 | Updates the one known entry as the event says; an unknown id changes nothing |
| Registry.FlagsAreStandingEvents | src/daemon/orchestratorRegistry.ts:82-108 | Over every history, each flag is set exactly when the event that sets it reached the entry and nothing that clears it followed |
| Registry.KnownIff | src/daemon/orchestratorRegistry.ts:40-63 | Over every history, an orchestrator has an entry exactly when it was registered and not unregistered since |
| Registry.LastEventIs | src/daemon/orchestratorRegistry.ts:82-86 | The last event time is that of the last input for the orchestrator, when that is an event that found an entry, and none otherwise |
| Registry.StatusOfHistory | src/daemon/orchestratorStatus.ts:54-81 | The five statuses as exact conditions on which events of the history still stand, when the last one was, and the runs owned |
| Registry.EndedIsStale | src/daemon/orchestratorStatus.ts:68-74 | An ended session is stale whatever runs it owns and whatever turn events follow, until it is active or registered again |
| FrameCodec.FrameReader.Push | src/ipc/protocol.ts:45-59 | One push returns every complete frame of buffer and chunk and keeps the rest; an error yields no frame |
| FrameCodec.ScanResumes | src/ipc/protocol.ts:45-59 | More bytes resume decoding exactly where the residual buffer stopped |
| FrameCodec.RoundTrip | src/ipc/protocol.ts:35-60 | However the encodings of messages of at most 10 MiB are cut into chunks, the pushes return the messages and leave nothing over |
| FrameCodec.DecodeEncoded | src/ipc/protocol.ts:35-59 | Decoding concatenated encodings followed by any bytes yields the messages and then what those bytes yield |
| FrameCodec.ScanReads | src/ipc/protocol.ts:45-59 | Any byte stream: the frames read are exactly those it begins with; what is left begins with a frame of more than 10 MiB, or one that does not parse, exactly when that is the error, and with no complete frame otherwise |
| FrameCodec.PrefixDecodes | src/ipc/protocol.ts:45-59 | After any prefix of the stream the frames returned are exactly the messages fully contained in it |
| FrameCodec.ContainedFit | src/ipc/protocol.ts:53-56 | The count of contained messages is the largest whose encodings fit the prefix |
| FrameCodec.ErrorIsSticky | src/ipc/protocol.ts:50-52 | After an oversized or unparsable frame every later push fails the same way and yields nothing |
| Secrets.UnquoteFormat | src/auth/userSecrets.ts:281-303 | The two sequential unescape passes undo the formatting of every value |
| Secrets.WrittenPlainIff | src/auth/userSecrets.ts:281-289 | A value is written without quotes exactly when it holds no white space, quote, `#` or `=` |
| Secrets.UnquotedPlain | src/auth/userSecrets.ts:291-303 | A pair of double or single quotes around a text without backslashes is taken off, and any other value is read as it is |
| Secrets.KeyLineIff | src/auth/userSecrets.ts:10 | A line is a key entry exactly when it is a valid key, `=` and text without line terminators |
| Secrets.ParseSecretsText | src/auth/userSecrets.ts:252-267 | Every line becomes one entry, in order; one trailing empty line is dropped |
| Secrets.ParseSerializeIff | src/auth/userSecrets.ts:252-279 | On non-empty parsed entries, parsing inverts printing exactly when no line ends in a carriage return |
| Secrets.EmptyDoesNotRoundTrip | src/auth/userSecrets.ts:269-279 | An empty file has no entries, but no entries print as one empty line, which parses as one |
| Secrets.SaveUserSecret | src/auth/userSecrets.ts:188-223 | Rejects bad keys and newlines. Otherwise every entry stays in its place, comments and blank lines included, but for the key's, which all get the new value, or one at the end when there was none; the written text reads back so when the value is one line and no line ends in a return |
| Secrets.SaveThenParse | src/auth/userSecrets.ts:209-279 | Saving a one-line value and parsing gives the saved entries: other keys, comments and their order unchanged |
| Secrets.LookupSaved | src/auth/userSecrets.ts:209-220 | The saved key has the new value and every other key its old one |
| Secrets.SaveThenLoadIff | src/auth/userSecrets.ts:188-223 | For every file text, or none, and every accepted value: it comes back from the file exactly when it holds neither U+2028 nor U+2029 and no line hidden by a trailing carriage return, with another value, follows the last entry of its key |
| Secrets.ReturnUndoesSave | src/auth/userSecrets.ts:252-279 | A last line that ends in a carriage return becomes a key entry after a save and overrides the saved value, for every such file |
| Secrets.UnsetUserSecret | src/auth/userSecrets.ts:230-250 | The file is rewritten only when the key was there, and then as exactly its other entries, in their order, and reads back so when none of their lines ends in a return |
| Secrets.UnsetThenLoadIff | src/auth/userSecrets.ts:230-250 | For every file text: after removing a key and reading again it has no value exactly when no line of it was hidden by a trailing carriage return |
| Secrets.UnsetThenLoad | src/auth/userSecrets.ts:230-250 | Without lines that end in a return, every other key keeps its value too |
| ShellQuote.FieldsOfQuoted | src/claude/monitorPin.ts:118-126 | A POSIX shell (IEEE Std 1003.1-2017, XCU sections 2.2.1 and 2.2.2) reads back exactly the quoted tokens, for all tokens |
| ShellQuote.MatchesIffFills | src/claude/permission.ts:387-393 | A text matches a glob exactly when some text put for each star gives it |
| MonitorCommand.CommandShape | src/claude/monitorPin.ts:92-107 | For valid ids the command is the pinned prefix, a blank and the unquoted arguments |
| MonitorCommand.BuiltCommandReadsBack | src/claude/monitorPin.ts:92-107 | A shell reads the built command as node, bin, `monitor`, the run id, `--json-line` and, with a cursor, `--since` and the cursor, for every path |
| MonitorCommand.BuiltIff | src/claude/monitorPin.ts:92-105 | The builder accepts exactly JSON lines with a valid run id and a valid notification id or none, and names the first that is not |
| MonitorCursor.CursorIsRendered | src/claude/monitorPin.ts:5 | The cursors it accepts are exactly the ids the store renders, from numbers of at most twenty digits and ULIDs |
| MonitorCommand.AllowedByOwnPin | src/claude/monitorPin.ts:77-81 | The command matches an allow pattern of its own pin, with and without a cursor, for every path, also one that holds stars |
| MonitorCommand.AllowedIff | src/claude/monitorPin.ts:77-81 | For a pin without stars the allow patterns let through exactly the commands of its prefix with some text for the ids |
| MonitorCommand.AnywhereIff | src/claude/permission.ts:387-393 | `Bash(*w*)` matches exactly the commands that hold w |
| MonitorCommand.AtEndIff | src/claude/permission.ts:387-393 | `Bash(*w)` matches exactly the commands that end in w |
| MonitorCommand.AtStartIff | src/claude/permission.ts:387-393 | `Bash(h)` matches exactly the command h, `Bash(h*)` exactly those that begin with h |
| MonitorPermission.NoMetacharacterDenies | src/claude/permission.ts:240-250 | For every supported installation and valid ids no metacharacter pattern denies the command |
| MonitorPermission.PermittedIff | src/claude/permission.ts:361-370 | The command is permitted exactly when no anywhere-word of the deny list lies in the quoted prefix and the blank after it: ids and arguments never matter |
| MonitorPermission.DeniesIff | src/claude/permission.ts:228-290 | The deny list denies exactly the commands that hold a metacharacter, an inline flag or a session file, begin with a git global option, a reader or a dispatching builtin, or run a denied command, by path too, or git subcommand |
| MonitorPermission.SupportedButDenied | src/claude/monitorPin.ts:140-151 | A node path that ends in `-e` is supported, and every monitor command of its pin is denied |
| RotationHistory.AppendRotationEntry | src/claude/accountBinding.ts:254-289 | The two loops leave the last entries under the cap and the summed count; `truncated` says whether this call dropped entries |
| RotationHistory.AppendedIsCapped | src/claude/accountBinding.ts:254-289 | From any history: a marker stands first exactly when entries were dropped before or must be now, and counts them all; behind it the latest entries, 31 of them at most, or 32 without a marker |
| RotationHistory.CappedHistory | src/claude/accountBinding.ts:254-289 | From the empty history: at most 32 items, marker plus entries count every append, and the entries are the latest in order |
| RotationHistory.FollowupHistory | src/orchestratorService.ts:2250-2262 | Along a chain of rotated follow-ups the marker is dropped before each append: closed form of the history after any number of rotations |
| RotationHistory.CountKeptIff | src/claude/accountBinding.ts:224-247 | On that path the count still adds up exactly up to 33 rotations |
| RotationHistory.FollowupKeepsLatest | src/orchestratorService.ts:2250-2262 | On that path too the cap holds and the entries are the latest in order, all or at least 31 |
| Followup.ChainOriginatedFromProfileMode | src/orchestratorService.ts:720-738 | True exactly when a profile-mode run is among the first 1000 of the parent chain, cyclic chains and unreadable parents included |
| Followup.ReachesIff | src/orchestratorService.ts:720-738 | The bounded walk and the existence of such an ancestor agree for every bound |
| Followup.ChainIsRecorded | src/orchestratorService.ts:799-821 | Every child in a chain of codex runs has a recorded posture, with mode `normal` exactly for the isolated one, whatever legacy run the chain starts from |
| Followup.StartedChain | src/orchestratorService.ts:2297-2329 | A run the service started and every follow-up of it record their posture, which is the last one asked for, and isolated when none ever was |
| Followup.PostureIsLastAsked | src/orchestratorService.ts:799-809 | Over any chain the effective posture is the last one asked for, else the root's |
| Followup.TuningIsLastAsked | src/orchestratorService.ts:2127-2142 | Over any chain effort and tier are those last asked for together; a posture override leaves them alone |
| Followup.ProfilePostureHolds | src/orchestratorService.ts:755-758 | In a chain of up to 1000 follow-ups that began in profile mode the posture never changes |
| Followup.OverrideAcceptedIff | src/orchestratorService.ts:755-758 | A posture override of run k that codex takes otherwise is accepted exactly when the chain did not begin in profile mode or k is at least 1000 |
| Followup.StartAcceptedIff | src/orchestratorService.ts:2297-2370 | Which posture, effort and tier a start may ask for on each backend, and what is recorded |
| Followup.CodexAcceptedIff | src/orchestratorService.ts:755-809 | A chain of codex follow-ups is accepted exactly when none asks for effort `max` and, if it began in profile mode, none of the first 1000 for a posture |
| Followup.ClaudeChain | src/orchestratorService.ts:799-809 | The same for Claude, with the settings of every accepted chain: the last effort asked for and nothing else, or the first run's |
| Followup.CursorChain | src/orchestratorService.ts:799-809 | The same for Cursor: the settings are always the first run's |
| Sessions.RootMeta | src/observability.ts:343-353 | The walk up the parent links ends on cyclic links too and finds the specified root |
| Sessions.RootIffChainEnds | src/observability.ts:331-353 | The root has no parent exactly when the chain ends, and is then its end |
| Sessions.OwnRootIff | src/observability.ts:331-353 | A run is its own root exactly when it has no parent in the index or is on a cycle |
| Sessions.FollowupSharesKeyIff | src/observability.ts:325-329 | Without session ids a run and its follow-up share a session key exactly when the run is its own parent or no proper ancestor of the parent is the run |
| Sessions.SharesKeyIff | src/observability.ts:325-329 | Any two runs share a session key exactly when backend and session id agree, or backend and root without ids, or one's id spells out the other's root |
| Sessions.GroupBySession | src/observability.ts:194-200 | Keys without repetition, each with exactly its runs in list order |
| Sessions.GroupSelects | src/observability.ts:194-200 | A session's runs are exactly those of its key, each once, in list order |
| Sessions.SessionsPartition | src/observability.ts:190-226 | A listed run stands in the session of its key only, as often as in the list |
| Sessions.BuildSessionStats | src/observability.ts:236-254 | Per key, the number of metas that have it and of those that are running; the counts add up to the number of metas |

## Left out

- Torn writes: a file write happens whole or not at all. The removal of a run directory is one step.
- The file locks' retries and stale-lock breaking: the run lock and the notification lock are correct mutexes in the models.
- JSON and zod: `FrameCodec` and `TailReader` take the parser as a parameter, and records are values. Corrupt meta files, journal lines and registry entries are not modelled; `readRotationHistory` skipping malformed items is not either.
- NotificationIds.RenderOrder: does not model numbers of more than 20 digits, far above 2^53, where the program's numbers stop being exact.
- JournalHistory.EvolvesIff: takes ULIDs to grow along a schedule; within one millisecond the program's are only distinct.
- `appendNotification`, the generic append without a sentinel, and the dry run and age cutoff of `pruneTerminalRuns`: the matched directories are a parameter.
- The text of result files, meta fields other than status and fatality, activity stamps, and `markNotificationAcked` itself: the acked ids are a parameter of listings.
- `readLastEventSequenceFromLog`, a single fixed window over the event log: the event log protocol takes the last number from the log directly.
- Rotation: the reason given with a refusal, pruned children, registry and session files, and plain follow-ups of the same parent, which re-bind the parent's account without the lock.
- Interceptor: failing appends, activity updates, user cancellation and process signals. Output order is not claimed, because the run lock is not first-come first-served; the log is a multiset.
- The 60 s cap on the watchdog's delay is modelled, and no result depends on it; the clean-up of its handles when a run ends is not.
- The status engine for several orchestrators at once: slots are independent, and `Engine` has the slot of one. Hook execution is not part of this model. A scan of the owned runs sees them at one moment; the two readings of the store it makes are not told apart.
- Validation of Claude models and efforts and of Cursor model names: their answers are fields of `Followup.Request`.
- `Followup.OverrideAcceptedIff`: does not model follow-ups whose own metadata carries a `worker_profile`; in `Lineage` only the first run can be a profile-mode run.
- MonitorPermission: deny entries that are no Bash pattern cannot match a Bash invocation and are left out; the command names and git subcommands are parameters with the shape the source's lists have.
- Sessions: the sorting of sessions and prompts and the titles, statuses and workspace labels.
- CLI parsing, dashboards, prompts, MCP tool tables, diagnostics, the Cursor SDK adapter, git snapshots and session-file copying: no state worth a proof, or foreign calls.
