# Verified models of the naked agent

This project models the parts of the naked agent whose implementation differs from what they are for, and
proves that they do it, for all inputs and all interleavings.

- **The channel map of the Telegram front end** (`ChannelState`, `Snapshots`, `YoloHistory`, `ChannelMap`,
  `LockMachine`, `LockConservation`, `LockLiveness`, `FairRuns`, `ProgramOrder`, `OperationEffects`,
  `ChannelPrograms`, `SessionCreation`). It records which agent session belongs to which topic, which
  topics are auto-approved ("yolo") and until when, how often a chat has enabled auto-approval, and which tools are
  allowed. `ChannelState` gives the four tables and the effect of each access under a lock. `ChannelMap` is the object with
  its fields, proved against those accesses. `Snapshots` is the JSONL file, `YoloHistory` what auto-approval
  means over a history with restarts. `LockMachine` and `ChannelPrograms` run the same operations as programs of
  small steps over first-come-first-served locks, in any interleaving, together with concurrent flushes; `LockConservation` and
  `LockLiveness` show that no access is lost and that all of them finish, `ProgramOrder` and `OperationEffects` what
  has been done and written by then. `FairRuns` is the argument about fair runs
  that the machines below share.
- **The lock registry per conversation** (`PerChatLocks`), and what it shares with that of sessions (`Registries`).
- **The inbound coalescer** (`Coalescer`): a debounced buffer per key, as an object and as a machine with timers.
- **The loop guard** (`CanonicalJson`, `LoopGuards`): canonical JSON text as the identity of tool arguments, and
  decisions as functions of the whole history of calls.
- **Text machines**: the streaming filter (`StreamFilter`), the glob matcher (`ModelGlob`), placeholder expansion
  (`Placeholders`, `PlaceholderOrders`), mention rewriting over UTF-8 (`Mentions`, `Utf8`, `Encoding`), the
  first-object scan (`JsonScan`) and command prefixes (`CommandArity`); `Characters` holds the white space they share.
- **Bounded collections**: the working set (`WorkingSets`) and the instruction budget (`Instructions`).

`dafny verify dfyconfig.toml` checks everything. Loops and objects of the source are methods and classes here; each is
proved against a specification, and what the specification is worth is proved as lemmas beside it.

Where code and documentation disagree the model follows the code:

- The comment on the first-object scan promises nothing only when no balanced object exists. The code
  also returns nothing when the first `{` is never matched, even if a balanced object follows
  (`JsonScan.UnmatchedBraceHidesLaterObjects`). `JsonScan.PromiseKeptExactly` says for which texts the promise is kept.
- The comment on placeholder expansion reads as if all keys were substituted together. The code expands one key after
  the other, so a value can be expanded again (`PlaceholderOrders.ValueIsExpandedAgain`) or completed to a placeholder by the
  text behind it (`PlaceholderOrders.OpenValueIsCompleted`). The map of this build is iterated in key order; another build
  option of its library keeps insertion order. `PlaceholderOrders.SimultaneousInEveryOrderExactly` says for which contexts
  the expansion is a simultaneous substitution in every order, `PlaceholderOrders.TwoKeysExactly` for two keys in a given one.

## Model

| member | source | states |
|---|---|---|
| ChannelState.ApplyKeepsConsistent | naked/crates/naked-tg/src/channel_map.rs:586-608 | whatever access is made, a chat is permanent exactly when its saturating 32-bit count is at least two, and no topic keeps an empty allow-list |
| ChannelState.CountIsDistinctEnables | naked/crates/naked-tg/src/channel_map.rs:562-614 | over any log of accesses in lock order, a chat's count is its base plus the number of distinct enables (commands, and cards other than the chat's previous enable), saturating, and permanent holds exactly from two on |
| ChannelState.EnableCounts | naked/crates/naked-tg/src/channel_map.rs:590-606 | one enable moves a saturating count by one exactly when it is distinct from the chat's previous enable, and remembers its call |
| ChannelState.KeysAreTopics | naked/crates/naked-tg/src/channel_map.rs:125-127 | two chat and thread pairs have one key exactly if they are the same topic, no thread being thread 0 |
| ChannelState.AllowedIsLatest | naked/crates/naked-tg/src/channel_map.rs:804-831 | over any log of accesses a tool is allowed in a topic exactly if it was allowed there last, or was at first and was not disallowed since |
| ChannelState.GrantLastsThirtyDays | naked/crates/naked-tg/src/channel_map.rs:99-101 | a fresh grant reads on at every second of 30 days, 2,592,000 seconds, and off from then on unless the chat is permanent |
| ChannelState.RestoredGrantKeepsItsWindow | naked/crates/naked-tg/src/channel_map.rs:699-718 | a restored grant reads on exactly until the end of the window it was given; one that is over is not restored |
| ChannelState.SeedingIsIdempotent | naked/crates/naked-tg/src/channel_map.rs:655-671 | seeding leaves existing rows alone, gives a row to exactly the chats with an explicit grant and none yet, and a second seeding changes nothing |
| ChannelState.CountSinceLatestReset | naked/crates/naked-tg/src/channel_map.rs:562-683 | for any log, revocations and seedings included, a chat's count is what its latest reset left (nothing after `/yolo off`, one after seeding) plus the distinct enables since, saturating, and permanent holds exactly from two on |
| ChannelState.SessionIsLatestStored | naked/crates/naked-tg/src/channel_map.rs:425-508 | a look-up finds the session stored last for the topic and not removed since, whatever else was accessed between |
| ChannelState.ApplyKeepsStorable | naked/crates/naked-tg/src/channel_map.rs:562-831 | every access keeps counts within 32 bits and no allow-list empty, also in maps opened from damaged files |
| Snapshots.LoadCovers | naked/crates/naked-tg/src/channel_map.rs:236-321 | for every map, also one opened from a damaged file: reading any lines that a flush may write, in any order and with repetitions, recovers per table nothing but what was stored and everything whose line was read |
| Snapshots.ReopeningRestores | naked/crates/naked-tg/src/channel_map.rs:221-414 | for every map, also one opened from a damaged file: flush followed by open restores exactly the tables, minus expired grants and the dedup memory, whatever order the hash maps were iterated in |
| Snapshots.LoadIsStorable | naked/crates/naked-tg/src/channel_map.rs:236-321 | whatever a file holds, the map opened from it can be flushed and opened again without loss |
| Snapshots.RestartKeepsConsistent | naked/crates/naked-tg/src/channel_map.rs:251-265 | a restart keeps counts, permanent flags and allow-lists consistent |
| Snapshots.LastAdmittedRowIsRead | naked/crates/naked-tg/src/channel_map.rs:236-313 | of any file, however damaged or repetitive, a topic gets exactly the grant of its last row that is inside its own window, and no grant if there is none |
| Snapshots.LastRowsAreRead | naked/crates/naked-tg/src/channel_map.rs:236-279 | of any file a topic gets the session of its last row, a chat the count (in 32 bits) and permanent mark of its last row, and neither anything if there is no row |
| Snapshots.AllToolsAreRead | naked/crates/naked-tg/src/channel_map.rs:236-321 | of any file a topic is allowed exactly the tools of all its rows |
| Snapshots.LegacyRowsKeepLegacyWindow | naked/crates/naked-tg/src/channel_map.rs:281-312 | of any file, a topic whose admitted row has no TTL marker has the 72-hour window and is inside it, and one whose row has no explicit marker is not explicit |
| Snapshots.OnlyActiveGrantsAreRead | naked/crates/naked-tg/src/channel_map.rs:303-312 | whatever a file holds, no grant is read outside the window the file gives it |
| YoloHistory.RunKeepsConsistent | naked/crates/naked-tg/src/channel_map.rs:538-762 | every history of operations and restarts keeps the tables consistent |
| YoloHistory.RunKeepsStorable | naked/crates/naked-tg/src/channel_map.rs:221-762 | a map opened from whatever file can, after any history, be flushed and opened again without loss |
| YoloHistory.StoredGrantIsLatest | naked/crates/naked-tg/src/channel_map.rs:538-718 | a stored grant is the topic's latest unrevoked grant, with the time and window it was given |
| YoloHistory.LatestActiveGrantIsStored | naked/crates/naked-tg/src/channel_map.rs:538-718 | with a clock that does not go back, no grant inside its window is ever forgotten |
| YoloHistory.AutoApprovalFollowsLatestGrant | naked/crates/naked-tg/src/channel_map.rs:538-552 | over any history with restarts, a topic reads as auto-approved only if its chat is permanent or its latest unrevoked grant is inside the window it was given; with a monotone clock, exactly then |
| YoloHistory.MaintenanceKeepsStoredGrant | naked/crates/naked-tg/src/channel_map.rs:221-423 | after any run, no sequence of restarts, seedings and queries brings a grant back or changes the time or window of a stored one: what is still stored is what was stored before |
| YoloHistory.QueryForgetsExpired | naked/crates/naked-tg/src/channel_map.rs:538-552 | a query removes its topic's grant exactly if it answers off, so that no expired grant stays unless the chat is permanent, and changes nothing else |
| YoloHistory.RevocationLasts | naked/crates/naked-tg/src/channel_map.rs:677-683 | after `/yolo off` every topic of the chat reads as off until the next grant in that chat, through restarts and seedings |
| YoloHistory.ErasedRunIsAhead | naked/crates/naked-tg/src/channel_map.rs:620-671 | simulation between a run and the same run without its automated grants: explicit grants are kept and every row of the full run is matched by one at least as far |
| YoloHistory.AutomatedGrantsNeverEscalate | naked/crates/naked-tg/src/channel_map.rs:616-671 | erasing all automated grants from any run never lowers a chat's count and never removes a permanent flag |
| YoloHistory.CountOverHistory | naked/crates/naked-tg/src/channel_map.rs:221-683 | over any history, restarts included, a chat's count is what its latest revocation or effective seeding left plus the distinct enables since, saturating, where a restart forgets which card was delivered last |
| YoloHistory.RestartForgetsTheCard | naked/crates/naked-tg/src/channel_map.rs:251-265 | one card delivered before and after a restart counts twice and makes its chat permanent; without the restart it counts once |
| YoloHistory.QueryLosesExactly | naked/crates/naked-tg/src/channel_map.rs:538-552 | a query that saw an expired grant and then removes it takes an active grant away exactly if the accesses between its two locks gave the topic one |
| YoloHistory.EnableInTheWindowIsLost | naked/crates/naked-tg/src/channel_map.rs:538-552 | an enable between the two locks of such a query is lost: the topic reads off, although it reads on if the query comes first |
| ChannelMap.ChannelSessionMap.constructor | naked/crates/naked-tg/src/channel_map.rs:193-203 | a new map is empty and has no backing file |
| ChannelMap.ChannelSessionMap.Open | naked/crates/naked-tg/src/channel_map.rs:221-325 | the opened map holds exactly what its file's lines load to; a missing file is an empty map |
| ChannelMap.ChannelSessionMap.ReadLine | naked/crates/naked-tg/src/channel_map.rs:236-321 | one line has the effect of `LoadLine`; blank, malformed, unknown and incomplete lines have none |
| ChannelMap.ChannelSessionMap.Flush | naked/crates/naked-tg/src/channel_map.rs:330-414 | the lines written are a snapshot of all four tables together, and nothing is written for a map that is only in memory |
| ChannelMap.ChannelSessionMap.SessionLines | naked/crates/naked-tg/src/channel_map.rs:364-373 | one line for each session entry and no other |
| ChannelMap.ChannelSessionMap.GrantLines | naked/crates/naked-tg/src/channel_map.rs:374-385 | one line for each grant, with its window and its explicit mark, and no other |
| ChannelMap.ChannelSessionMap.ChatLines | naked/crates/naked-tg/src/channel_map.rs:386-395 | one line for each chat row, without the dedup memory, and no other |
| ChannelMap.ChannelSessionMap.AllowLines | naked/crates/naked-tg/src/channel_map.rs:396-407 | one line for each allowed tool of each topic, and no other |
| ChannelMap.ChannelSessionMap.ToolLines | naked/crates/naked-tg/src/channel_map.rs:397-406 | one line for each tool of one topic, and no other |
| ChannelMap.ChannelSessionMap.Set | naked/crates/naked-tg/src/channel_map.rs:480-485 | stores the topic's session and leaves every other topic's session, grant, tools and answers as they were |
| ChannelMap.ChannelSessionMap.Remove | naked/crates/naked-tg/src/channel_map.rs:506-508 | removes the topic's session and leaves every other topic as it was |
| ChannelMap.ChannelSessionMap.IsYolo | naked/crates/naked-tg/src/channel_map.rs:538-552 | true exactly when the chat is permanent or the grant is inside its window; forgets only an expired grant of this topic and leaves every other topic as it was |
| ChannelMap.ChannelSessionMap.SetTopicGrant | naked/crates/naked-tg/src/channel_map.rs:628-637 | gives the topic a 30-day grant from now and changes nothing else |
| ChannelMap.ChannelSessionMap.EnableYolo | naked/crates/naked-tg/src/channel_map.rs:562-614 | grants the topic for thirty days to the second and counts the enable once for the chat; another topic's answers change only when the chat becomes permanent; returns the stored count and tier |
| ChannelMap.ChannelSessionMap.GrantTemporaryYolo | naked/crates/naked-tg/src/channel_map.rs:620-622 | grants the topic for thirty days to the second without an explicit mark, and leaves the chat's escalation and every other topic alone |
| ChannelMap.ChannelSessionMap.SeedMissingChatCounts | naked/crates/naked-tg/src/channel_map.rs:655-671 | in whatever order the grants are iterated, exactly the chats with an explicit grant and no row get a row with count one |
| ChannelMap.ChannelSessionMap.ClearYoloChat | naked/crates/naked-tg/src/channel_map.rs:677-683 | drops the chat's row and all its grants, so that every topic of it reads off at every time, and changes nothing of other chats |
| ChannelMap.ChannelSessionMap.EnableYoloAt | naked/crates/naked-tg/src/channel_map.rs:699-718 | restores an explicit grant with its own window, only inside it, and leaves every other topic alone |
| ChannelMap.ChannelSessionMap.DisableYolo | naked/crates/naked-tg/src/channel_map.rs:757-762 | removes the topic's grant and leaves the chat's escalation and every other topic alone |
| ChannelMap.ChannelSessionMap.AddAllowed | naked/crates/naked-tg/src/channel_map.rs:804-812 | adds the tool to those allowed in the topic and leaves every other topic alone; true exactly if it was not allowed before |
| ChannelMap.ChannelSessionMap.RemoveAllowed | naked/crates/naked-tg/src/channel_map.rs:814-831 | takes the tool from those allowed in the topic, forgetting a topic with no tool left, and leaves every other topic alone; true exactly if it was allowed |
| ChannelMap.FlushAndReopen | naked/crates/naked-tg/src/channel_map.rs:221-423 | a restart of the object, flush then open, is the `Restart` event of the histories, for every map that a file or a history can give: every topic keeps session and tools, and reads from then on as it would have |
| LockMachine.EveryScheduleKeepsInv | naked/crates/naked-tg/src/channel_map.rs:330-423 | for any programs that take locks in the canonical order and access tables under their locks, every schedule keeps the invariant of locks, queues, buffers and snapshots |
| LockMachine.SnapshotsAreInstants | naked/crates/naked-tg/src/channel_map.rs:339-422 | every snapshot written equals the four tables at one single instant, not before its flush took the flush lock, and never from an earlier instant than a snapshot it replaces |
| LockLiveness.NoDeadlock | naked/crates/naked-tg/src/channel_map.rs:341-358 | in every reachable state with an unfinished task some task can go on, although queues are first come, first served |
| LockLiveness.FairSchedulesFinish | naked/crates/naked-tg/src/channel_map.rs:330-423 | under any schedule that names every task again and again, each waiting task is granted its lock and all tasks finish, within as many rounds as there was work |
| LockLiveness.NobodyOvertakes | naked/crates/naked-tg/src/channel_map.rs:330-358 | locks are granted first come, first served: as long as a task waits for a lock, none that asked for it later goes on |
| LockConservation.AccessesAreConserved | naked/crates/naked-tg/src/channel_map.rs:562-683 | in every schedule the accesses made and those still to be made are together exactly those of the programs |
| LockConservation.FinishedRunIsConserved | naked/crates/naked-tg/src/channel_map.rs:562-683 | when all tasks are finished each access of each program was made exactly once |
| ChannelPrograms.EveryProgramOk | naked/crates/naked-tg/src/channel_map.rs:330-831 | every operation, for every outcome of its tests, takes the locks in the canonical order, accesses and copies tables only under their locks, publishes only a complete cut, and ends holding nothing |
| ChannelPrograms.FlushesAreConsistentAndLive | naked/crates/naked-tg/src/channel_map.rs:330-423 | for any number of operations and flushes in any interleaving: snapshots are instants of the memory, in order, and there is no deadlock |
| ChannelPrograms.FinishedRunMadeEveryAccess | naked/crates/naked-tg/src/channel_map.rs:562-831 | when every operation has finished, each of their accesses was made exactly once |
| OperationEffects.EveryProgramDoesItsWork | naked/crates/naked-tg/src/channel_map.rs:330-831 | the program of every operation takes exactly its guards and makes exactly its accesses, in order, and writes the snapshot file once exactly if it is a flush of a map with a file |
| OperationEffects.OperationAlone | naked/crates/naked-tg/src/channel_map.rs:330-831 | every operation, run alone on any tables, ends with the tables that its event gives in the histories, and a flush has written exactly these tables |
| OperationEffects.FinishedRunDidEverything | naked/crates/naked-tg/src/channel_map.rs:330-831 | in every finished interleaving each operation made its accesses in its order and nothing else was accessed, and there is one snapshot for each flush of a map with a file |
| OperationEffects.FairRunsFinish | naked/crates/naked-tg/src/channel_map.rs:330-831 | any number of operations and flushes all finish under every schedule that names each often enough; then each made its accesses, in its order and once, and each flush of a map with a file wrote it |
| OperationEffects.LastFlushWritesTheMemory | naked/crates/naked-tg/src/channel_map.rs:330-423 | when only flushes are still to run and one has a file, a snapshot is written, and what is written is the final memory |
| ProgramOrder.EachTaskInItsOrder | naked/crates/naked-tg/src/channel_map.rs:562-683 | in every interleaving the accesses a task has made and those of the rest of its program are, in order, those of its program |
| ProgramOrder.EveryPublishWrites | naked/crates/naked-tg/src/channel_map.rs:411-422 | in every interleaving the snapshots written and those still to write are together as many as the programs publish |
| ProgramOrder.LaterSnapshotsAreFresh | naked/crates/naked-tg/src/channel_map.rs:330-423 | a snapshot whose flush begins at or after some instant holds everything accessed before that instant |
| ChannelPrograms.CountInEveryLockOrder | naked/crates/naked-tg/src/channel_map.rs:562-683 | in every interleaving of any operations, revocations and seedings included, in memory and in every snapshot: the count is what the chat's latest reset left plus the distinct enables since, permanent exactly from two on |
| SessionCreation.RunKeepsInv | naked/crates/naked-tg/src/channel_map.rs:433-468 | every interleaving of callers keeps: own mutex per key, one holder per mutex, nothing created or stored while a session exists |
| SessionCreation.LocksAreNeverReplaced | naked/crates/naked-tg/src/channel_map.rs:459-468 | a mutex once registered for a key stays that key's mutex for ever |
| SessionCreation.CreatedAtMostOnce | naked/crates/naked-tg/src/channel_map.rs:433-457 | for any number of concurrent callers a session is created at most once per key, and never for a key that had one, every caller returns the stored id, and while one is not done some caller can go on |
| SessionCreation.ReturnedIdsAreOldOrCreated | naked/crates/naked-tg/src/channel_map.rs:433-457 | in every interleaving a session that was there stays as it was, and the id stored or returned for any other key is one that a closure returned to a caller of that key |
| SessionCreation.EveryCallerReturns | naked/crates/naked-tg/src/channel_map.rs:433-457 | under any schedule that names every caller often enough, every caller returns |
| PerChatLocks.StepKeepsInv | naked/crates/naked-tg/src/per_chat_locks.rs:46-70 | every step keeps one mutex per key and one holder per mutex, and replaces no registered mutex |
| PerChatLocks.WaitingBehindOwnKey | naked/crates/naked-tg/src/per_chat_locks.rs:46-58 | a waiting caller is held up only by a holder of its own conversation, and that holder can go on |
| PerChatLocks.RegistrySerializesEachConversation | naked/crates/naked-tg/src/per_chat_locks.rs:46-70 | in every interleaving no two callers hold the lock of one conversation, registered mutexes are never replaced, and there is no deadlock |
| PerChatLocks.EveryCallerIsGranted | naked/crates/naked-tg/src/per_chat_locks.rs:46-70 | under any schedule that names every caller often enough, every caller has been granted the lock of its conversation and has given it back |
| PerChatLocks.GuardsReportRight | naked/crates/naked-tg/src/per_chat_locks.rs:46-60 | in every interleaving a guard reports that it waited exactly if some caller held the lock of the conversation when it was tried |
| Coalescer.InboundCoalescer.SubmitKeyed | naked/crates/naked-tg/src/album.rs:134-195 | a zero debounce hands the message back and changes nothing; otherwise it is appended or counted as dropped, the old timer is aborted, and exactly one new timer is armed |
| Coalescer.InboundCoalescer.SubmitAlbum | naked/crates/naked-tg/src/album.rs:86-110 | a message outside an album is handed back; one of an album is submitted under its chat and group |
| Coalescer.InboundCoalescer.TakeBatch | naked/crates/naked-tg/src/album.rs:177-192 | a timer takes the whole buffer of its key at once, or finds none and ends |
| Coalescer.EverySubmissionIsInOnePlace | naked/crates/naked-tg/src/album.rs:134-195 | in every interleaving, per key and in order, the submissions are those of the delivered batches followed by those of the buffer; each keeps the first sixteen and counts the rest as dropped |
| Coalescer.BatchesAreBounded | naked/crates/naked-tg/src/album.rs:157-170 | in every interleaving each delivered batch and each buffer is not empty, holds at most sixteen messages, drops some only when it is full, and accounts for all its submissions |
| Coalescer.OneLiveTimerPerBufferedKey | naked/crates/naked-tg/src/album.rs:171-193 | in every interleaving a key is buffered exactly if it has a live timer, and then it has exactly one |
| Coalescer.TakenTimersAreNotHeld | naked/crates/naked-tg/src/album.rs:179-184 | taking a batch removes the handle of its timer with the buffer: no buffer holds a timer that has taken or delivered a batch |
| Coalescer.TakenTimersAreNeverAborted | naked/crates/naked-tg/src/album.rs:171-192 | although aborting would cancel a timer in its flush, a timer that has taken its batch is never aborted, whatever is submitted afterwards: no later submission finds its handle |
| Coalescer.AwakeTimerFindsItsBatch | naked/crates/naked-tg/src/album.rs:179-184 | an awake timer always finds its buffer: the early return is never a lost flush |
| Coalescer.DeliveredAfterQuiet | naked/crates/naked-tg/src/album.rs:171-193 | a batch is delivered only after its key was quiet for the debounce of its last submission |
| Coalescer.EverySubmissionIsDelivered | naked/crates/naked-tg/src/album.rs:171-193 | once the debounce of every submission has passed, any continuation without submissions in which each timer wakes and then takes empties every buffer, so that everything ever submitted under a key has been delivered, in order |
| CanonicalJson.CanonicalTextIsIdentity | naked/crates/naked-core/src/loop_guard.rs:73-108 | two values get the same text exactly when they are equal up to the order of object keys at every depth |
| CanonicalJson.NormalIffEquivalent | naked/crates/naked-core/src/loop_guard.rs:93-106 | sorting keys at every depth picks one representative of each class of values equal up to key order |
| CanonicalJson.RenderInjective | naked/crates/naked-core/src/loop_guard.rs:73-108 | different values have different texts |
| CanonicalJson.RenderPrefix | naked/crates/naked-core/src/loop_guard.rs:73-108 | unique readability: a text that starts with the text of a value starts with that of no other, wherever the next value stops |
| CanonicalJson.QuotePrefix | naked/crates/naked-core/src/loop_guard.rs:80-82 | strings escaped as in section 7 of RFC 8259 are uniquely readable |
| CanonicalJson.SortedUnique | naked/crates/naked-core/src/loop_guard.rs:95-96 | strictly sorted entries are determined by the set of entries |
| CanonicalJson.WriteCanonical | naked/crates/naked-core/src/loop_guard.rs:73-108 | the writer appends exactly the text of the value's normal form |
| CanonicalJson.WriteItems | naked/crates/naked-core/src/loop_guard.rs:85-91 | the array loop writes the items in order, separated by commas and closed |
| CanonicalJson.WriteEntries | naked/crates/naked-core/src/loop_guard.rs:95-105 | the object loop writes the entries in key order, whatever order they were stored in |
| LoopGuards.BlockedFromThirdCall | naked/crates/naked-core/src/loop_guard.rs:32-42 | an attempt is blocked whenever at least two earlier attempts had the same tool and arguments equal up to key order, whatever was called between |
| LoopGuards.BlockedExactlyFromThirdCall | naked/crates/naked-core/src/loop_guard.rs:32-42 | without a hash collision nothing else is blocked, and the number quoted is that of the equal calls |
| LoopGuards.FailureRunIsMaximal | naked/crates/naked-core/src/loop_guard.rs:44-62 | the counter is the length of the tool's own run of failures at the end of the history |
| LoopGuards.OutcomeDecisionsFollowRuns | naked/crates/naked-core/src/loop_guard.rs:51-61 | warned exactly at a failure run of three, halted exactly from a run of eight on |
| LoopGuards.LoopGuard.constructor | naked/crates/naked-core/src/loop_guard.rs:25-29 | a new guard stands for the empty history |
| LoopGuards.LoopGuard.HashArgs | naked/crates/naked-core/src/loop_guard.rs:65-71 | the hash of the arguments is that of their canonical text |
| LoopGuards.LoopGuard.RecordAttempt | naked/crates/naked-core/src/loop_guard.rs:32-42 | the decision is a function of all earlier attempts, interleaved over any tools |
| LoopGuards.LoopGuard.RecordOutcome | naked/crates/naked-core/src/loop_guard.rs:44-62 | the decision is a function of all outcomes so far, interleaved over any tools |
| StreamFilter.FindFirstMarker | naked/crates/naked-core/src/stream_filter.rs:60-65 | the first place where any marker stands, with the length of the first marker of the table there |
| StreamFilter.MarkerLength | naked/crates/naked-core/src/stream_filter.rs:44-48 | the length of the start marker that stands at the place found |
| StreamFilter.LeaveWrapper | naked/crates/naked-core/src/stream_filter.rs:30-37 | inside a wrapper everything up to and with the first end marker is dropped |
| StreamFilter.EnterWrapper | naked/crates/naked-core/src/stream_filter.rs:38-56 | outside a wrapper everything up to the first start marker passes, and the marker is dropped |
| StreamFilter.FilterFakeToolDelta | naked/crates/naked-core/src/stream_filter.rs:23-58 | the searching loop gives the output and final state of the character-by-character filter |
| StreamFilter.MarkersAreWellShaped | naked/crates/naked-core/src/stream_filter.rs:3-17 | the two marker tables have the shape that the results are proved for |
| StreamFilter.CutDoesNotMatter | naked/crates/naked-core/src/stream_filter.rs:23-58 | one cut makes no difference when no marker of the kind looked for at the cut stands across it |
| StreamFilter.ChunkingDoesNotMatter | naked/crates/naked-core/src/stream_filter.rs:23-58 | for any number of cuts, if no marker stands across one, filtering the pieces in turn gives the output and state of the whole text |
| StreamFilter.CutStartMarkerShows | naked/crates/naked-core/src/stream_filter.rs:38-48 | a cut through a start marker that is looked for always changes the result |
| StreamFilter.CutEndMarkerExactly | naked/crates/naked-core/src/stream_filter.rs:30-37 | a cut through an end marker inside a wrapper goes unnoticed exactly if a start marker follows the end marker at once |
| StreamFilter.SidesAgreeExactly | naked/crates/naked-core/src/stream_filter.rs:29-56 | filtering a text from inside and from outside a wrapper gives the same exactly if the text begins with a start marker |
| StreamFilter.CutMattersExactly | naked/crates/naked-core/src/stream_filter.rs:23-58 | a cut changes output or state exactly if it goes through a start marker outside a wrapper, or through an end marker inside one that no start marker follows at once |
| ModelGlob.MatchesOne | naked/crates/naked-tg/src/model_glob.rs:57-69 | a pattern that does not start with a star matches exactly when its first character fits one character and the rest matches the rest |
| ModelGlob.MatchesStar | naked/crates/naked-tg/src/model_glob.rs:40-56 | a star may stand for any span, the empty one included |
| ModelGlob.GlobMatchInner | naked/crates/naked-tg/src/model_glob.rs:34-74 | true exactly when the text can be divided into spans that fit the pattern's characters in order; the nested retry loop terminates |
| ModelGlob.RetryAtEachPosition | naked/crates/naked-tg/src/model_glob.rs:47-56 | the retry loop finds a position where the rest of the pattern matches, if there is one |
| ModelGlob.GlobMatch | naked/crates/naked-tg/src/model_glob.rs:28-32 | the whole text matches the whole pattern, both read as characters |
| ModelGlob.MatchesAny | naked/crates/naked-tg/src/model_glob.rs:23 | some pattern matches the full name |
| ModelGlob.FilterModelsByScope | naked/crates/naked-tg/src/model_glob.rs:11-25 | exactly the models that some pattern matches, in their order and with repetitions; all of them when there is no pattern |
| ModelGlob.NamePattern | naked/crates/naked-tg/src/model_glob.rs:11-25 | a pattern without wildcards selects exactly the model with that provider and name |
| ModelGlob.ProviderPattern | naked/crates/naked-tg/src/model_glob.rs:11-25 | a provider followed by `/*` selects exactly the models of that provider |
| ModelGlob.NoPatternsKeepAll | naked/crates/naked-tg/src/model_glob.rs:11-25 | without patterns every model is kept, in its place |
| Placeholders.ExpandPlaceholders | naked/crates/naked-core/src/agent_role.rs:461-478 | the loop replaces key after key in the text left by the keys before; skipping absent keys makes no difference |
| Placeholders.ReplaceThenSubstitute | naked/crates/naked-core/src/agent_role.rs:466-476 | replacing one key and then substituting the others at once is substituting all at once |
| Placeholders.ReplacingKeepsSafe | naked/crates/naked-core/src/agent_role.rs:466-476 | after a key is replaced, still no placeholder of the remaining keys directly follows an unfinished one |
| Placeholders.ExpansionIsSimultaneous | naked/crates/naked-core/src/agent_role.rs:456-478 | in a given order of the keys, one key at a time equals one simultaneous substitution when no value reaches the placeholder of a later key (holds it, or ends in a beginning of it) and no placeholder of the template directly follows an unfinished one |
| Placeholders.OrderDoesNotMatter | naked/crates/naked-core/src/agent_role.rs:466-476 | under the same condition the order of the keys does not matter |
| Placeholders.SeparatedTextIsSafe | naked/crates/naked-core/src/agent_role.rs:466-468 | in a template with a closing brace between any two opening ones no placeholder follows an unfinished one, for every context with brace-free keys |
| Placeholders.PlainExpansionIsSimultaneous | naked/crates/naked-core/src/agent_role.rs:456-478 | keys and values without braces and a separated template: expansion is simultaneous substitution |
| PlaceholderOrders.NoneReachesIsEnough | naked/crates/naked-core/src/agent_role.rs:466-476 | if no value reaches another key's placeholder, keys that stand for themselves aside, every order of the keys expands every separated template as one substitution |
| PlaceholderOrders.ReachedKeyShows | naked/crates/naked-core/src/agent_role.rs:466-476 | if a value reaches the placeholder of another key, there is a separated template on which the order with these two last differs from the substitution |
| PlaceholderOrders.SimultaneousInEveryOrderExactly | naked/crates/naked-core/src/agent_role.rs:456-478 | for any context with brace-free keys: all separated templates are expanded in every order of the keys as by one substitution exactly if no value reaches another key's placeholder, keys that stand for themselves aside |
| PlaceholderOrders.TwoKeysExactly | naked/crates/naked-core/src/agent_role.rs:466-476 | for two keys in a given order: all separated templates are expanded as by one substitution exactly if the first value does not reach the second key, or that key stands for itself |
| PlaceholderOrders.OrderShowsExactly | naked/crates/naked-core/src/agent_role.rs:466-476 | the order of two keys shows on a placeholder exactly if its value holds the placeholder of the other key and that key does not stand for itself |
| PlaceholderOrders.ValueIsExpandedAgain | naked/crates/naked-core/src/agent_role.rs:466-476 | an input on which the code is not a simultaneous substitution: a value that is the placeholder of a later key |
| PlaceholderOrders.OpenValueIsCompleted | naked/crates/naked-core/src/agent_role.rs:466-476 | another one: no value holds a placeholder, but one leaves a brace open that the template completes |
| Mentions.ParseMentions | naked/crates/naked-core/src/mentions.rs:17-53 | the mentions found are those of the specification, and every slice taken is at a UTF-8 boundary |
| Mentions.ScanToken | naked/crates/naked-core/src/mentions.rs:33-35 | a token ends at the first white space or `@`, or at the end of the text |
| Mentions.PassesFilter | naked/crates/naked-core/src/mentions.rs:37-41 | a token passes when it has a slash or a dot, at least three bytes, and does not start like a URL |
| Mentions.Slice | naked/crates/naked-core/src/mentions.rs:36 | a slice is only taken at boundaries, and is well-formed text |
| Mentions.MentionsAreTheTokens | naked/crates/naked-core/src/mentions.rs:17-53 | mention spans are in bounds, disjoint and increasing, and they are exactly the word-start tokens that pass the filter |
| Mentions.WhichTokensAreMentions | naked/crates/naked-core/src/mentions.rs:17-53 | a text that starts with `@` and a token starts with a mention exactly if the token has a slash or a dot, at least three bytes and no `http` in front; it ends at ASCII white space or another `@` |
| Mentions.MentionBoundaries | naked/crates/naked-core/src/mentions.rs:66-104 | in the partly rewritten text the next mention still stands where it was found, at UTF-8 boundaries |
| Mentions.RewriteStep | naked/crates/naked-core/src/mentions.rs:99-103 | replacing one mention by its path deletes exactly its `@` |
| Mentions.RewriteMentions | naked/crates/naked-core/src/mentions.rs:57-107 | replacing in reverse yields exactly the text without the `@` bytes of the mentions, well-formed UTF-8 again |
| Mentions.ReplaceRange | naked/crates/naked-core/src/mentions.rs:99-103 | a replacement between boundaries of a text gives a text |
| Utf8.AsciiIsBoundary | naked/crates/naked-core/src/mentions.rs:20-36 | in well-formed UTF-8 (section 4 of RFC 3629) the text may be cut before and after every ASCII byte |
| Utf8.SliceWellFormed | naked/crates/naked-core/src/mentions.rs:36 | the text between two boundaries is well-formed |
| Encoding.WellFormedIffEncoded | naked/crates/naked-core/src/mentions.rs:17-53 | the well-formed byte strings are exactly the UTF-8 encodings of strings |
| JsonScan.BalancedIffCounts | naked/crates/naked-core/src/agent_validator.rs:464-488 | a text is balanced by the grammar exactly when its braces cancel and no prefix closes more than it opens |
| JsonScan.CountsBackIffMatched | naked/crates/naked-core/src/agent_validator.rs:464-488 | the first opening brace is matched exactly if the count of braces from it comes back to zero somewhere |
| JsonScan.ExtractFirstJsonObject | naked/crates/naked-core/src/agent_validator.rs:464-488 | something is returned exactly if the count from the first opening brace comes back to zero, which is exactly if a balanced text starts there; then it is the shortest such text |
| JsonScan.SliceObject | naked/crates/naked-core/src/agent_validator.rs:478-482 | where the counter returns to zero the text from the first brace is the shortest balanced one, cut at UTF-8 boundaries |
| JsonScan.ObjectIffClosesLater | naked/crates/naked-core/src/agent_validator.rs:456-463 | a text holds a balanced object somewhere exactly if a closing brace stands behind its first opening one |
| JsonScan.PromiseKeptExactly | naked/crates/naked-core/src/agent_validator.rs:456-488 | the documented promise, nothing only when there is no object, is kept exactly for texts where the count from the first opening brace comes back to zero or no closing brace stands behind it |
| JsonScan.UnmatchedBraceHidesLaterObjects | naked/crates/naked-core/src/agent_validator.rs:456-488 | an input that holds a balanced object and for which the scan finds nothing |
| CommandArity.PrefixIsLongestEntry | naked/crates/naked-core/src/command_arity.rs:131-146 | for any table: the longest entry among the first three positional words, else the first such word in lower case, and nothing exactly for commands of flags only |
| CommandArity.PrefixIsIdempotent | naked/crates/naked-core/src/command_arity.rs:196-205 | feeding a prefix back gives the same prefix, for any table |
| CommandArity.FlagsMakeNoDifference | naked/crates/naked-core/src/command_arity.rs:196-205 | a flag put in between any two stretches of the command changes nothing |
| CommandArity.LeadingFlagMakesNoDifference | naked/crates/naked-core/src/command_arity.rs:196-205 | a flag in front of the command changes nothing |
| CommandArity.TrailingFlagMakesNoDifference | naked/crates/naked-core/src/command_arity.rs:196-205 | a flag behind the command changes nothing |
| CommandArity.WordsOfJoined | naked/crates/naked-core/src/command_arity.rs:132-141 | joining positional words with blanks and splitting again gives them back |
| CommandArity.AsciiIsLowering | naked/crates/naked-core/src/command_arity.rs:141-145 | lower case of ASCII letters is one of the functions that the results about lower case hold for |
| WorkingSets.WorkingSet.constructor | naked/crates/naked-core/src/working_set.rs:26-28 | a new set stands for the empty access history |
| WorkingSets.WorkingSet.Touch | naked/crates/naked-core/src/working_set.rs:31-39 | after an access the set is again the most recent paths of the history with that access added |
| WorkingSets.WorkingSet.Retain | naked/crates/naked-core/src/working_set.rs:33 | removes every place of the path and keeps the order of the others |
| WorkingSets.WorkingSet.Evict | naked/crates/naked-core/src/working_set.rs:36-38 | leaves the 20 last entries, whatever the length was before |
| WorkingSets.WorkingSet.TouchAll | naked/crates/naked-core/src/working_set.rs:74-80 | touching paths in turn adds them to the history in that order |
| WorkingSets.WorkingSet.ObserveTool | naked/crates/naked-core/src/working_set.rs:42-82 | a tool call accesses the paths its input names, in order, and keeps the set the most recent paths of the history |
| WorkingSets.NamedPathsAreAccessed | naked/crates/naked-core/src/working_set.rs:42-82 | a tool call accesses exactly the paths its input names, the second field of a file tool only if the first is missing |
| WorkingSets.LastNamedIsInFront | naked/crates/naked-core/src/working_set.rs:42-82 | the path a tool call names last is afterwards the first of the active files |
| WorkingSets.WorkingSet.ActiveFiles | naked/crates/naked-core/src/working_set.rs:97-99 | exactly the 20 most recently accessed distinct paths of the whole history, latest first, and no other list is |
| WorkingSets.WorkingSet.TopPaths | naked/crates/naked-core/src/working_set.rs:133-140 | the most recent paths of the history, as many as asked for and kept, latest first |
| WorkingSets.AccessKeepsMostRecent | naked/crates/naked-core/src/working_set.rs:31-39 | moving a path to the front and cutting the list takes the most recent paths of a history to those of the longer history, for any bound |
| WorkingSets.TouchedReversed | naked/crates/naked-core/src/working_set.rs:33-38 | removing, pushing and evicting from the front is, read latest first, moving to the front and cutting the end |
| WorkingSets.MostRecentIsUnique | naked/crates/naked-core/src/working_set.rs:97-99 | a history has only one list of its most recent paths |
| WorkingSets.TopOfMostRecent | naked/crates/naked-core/src/working_set.rs:133-140 | the beginning of the list of most recent paths is the list for a smaller number |
| Instructions.CollectInstructionsInDir | naked/crates/naked-core/src/prompt.rs:164-207 | a directory adds what one pass over its files adds, given what was seen and what is left; stopping early loses nothing |
| Instructions.LoadProjectInstructions | naked/crates/naked-core/src/prompt.rs:210-234 | the walk over all directories collects exactly what one pass over all distinct, readable, non-blank files collects, cut to the shared budget |
| Instructions.MakePart | naked/crates/naked-core/src/prompt.rs:187-198 | a part keeps a beginning of its file's text, at most 4,000 characters and no more than is left, is marked exactly when something was cut, and lowers the budget by its bytes, at least the characters kept, down to zero |
| Instructions.LeftIsWhatIsNotSpent | naked/crates/naked-core/src/prompt.rs:187-198 | what is left of the budget is the budget less the bytes of all parts made, markers included, down to zero |
| Instructions.FittingTextsAreKeptWhole | naked/crates/naked-core/src/prompt.rs:172-205 | texts of at most 4,000 characters whose bytes fit into the budget together are all kept whole and unmarked, and cost exactly their bytes |
| Instructions.SmallWorkspaceIsLoadedWhole | naked/crates/naked-core/src/prompt.rs:209-228 | a workspace whose distinct instruction files are short and fit into 12,000 bytes is loaded whole, in order |
| Instructions.TrimTakesOnlySpace | naked/crates/naked-core/src/prompt.rs:182-186 | trimming takes white space from the two ends and nothing else |
| Encoding.BytesAreEncoded | naked/crates/naked-core/src/prompt.rs:197 | the bytes charged for a text are those of its UTF-8 encoding |
| Instructions.CollectFile | naked/crates/naked-core/src/prompt.rs:182-204 | an unreadable or blank file adds nothing and costs nothing; any other adds one part |
| Instructions.KeptWithinBudget | naked/crates/naked-core/src/prompt.rs:187-198 | for any files the kept characters, markers excluded, never exceed the budget |
| Instructions.FewTruncations | naked/crates/naked-core/src/prompt.rs:187-198 | for any files at most one truncation per 4013 begun units of the budget |
| Instructions.PartsAreCutCandidates | naked/crates/naked-core/src/prompt.rs:172-205 | the parts are cut from the first candidates in order, and from all of them while budget is left; a part keeps a beginning of its file and is marked exactly when it lost something |
| Instructions.InstructionsStayInBudget | naked/crates/naked-core/src/prompt.rs:152-234 | for any directories and files: at most 12,000 kept characters, at most three truncated files, no canonical path twice |
| Instructions.NothingMissingWhileBudgetLasts | naked/crates/naked-core/src/prompt.rs:172-205 | while budget is left, the first readable file with text of every canonical path is collected |

## Left out

- Files, temporary files and their clean-up, failed writes, directories: the snapshot file is replaced atomically, a file that cannot be read is `None`.
- JSON parsing: a line of the snapshot is a record of optional fields, a tool argument is a `Json` value; `serde_json` itself is not part of this model.
- `should_auto_approve`, `all_entries`, `sessions_for_chat`, `restore_from` and the allow-list listing: single look-ups or one loop of insertions.
- The remaining time of a grant, its rounding to days, the toasts and all other user-facing text.
- 64-bit overflow of `now - enabled_at`: clock readings and windows are unbounded integers.
- `is_yolo` reads and then removes under two separate locks: the interleavings are in `ChannelPrograms`, and `YoloHistory.QueryLosesExactly` says when an active grant is lost between the two locks; the other results about which grant is in force are for one operation at a time.
- The tests that an operation makes under a lock are choices in `ChannelPrograms`, so that its results hold for more runs than the source has.
- What the closure of `get_or_insert_with` does while the key's mutex is held: it is taken not to come back to the map.
- Cancellation of callers, and other writers of the session table, in `SessionCreation`.
- Where a poisoned or fair lock differs: locks are granted first come, first served, as tokio documents for its own.
- The window of a timer task that is being polled while it is aborted: aborting is atomic under the map lock.
- `attach_overflow_notice`: which message carries the omission count, and its wording; the count itself is in the batch.
- Coalescer `submit_text`: it is `SubmitKeyed` with a key and a debounce given by the caller.
- Hash values: `hash` is any function from texts to integers.
- Numbers: a JSON number is its rendered text, assumed to be built from the characters of section 6 of RFC 8259; negative and positive zero count as different.
- `contains_fake_wrapper`, and reading mentioned files into the context block.
- The signed 32-bit depth of the first-object scan: it is an unbounded integer, so texts with more than 2^31 open braces are not modelled.
- The tables of `str::to_lowercase`: `CommandArity` holds for every function that keeps words and flags, treats words apart and is idempotent (`IsLowering`).
- The contents of the command table and the read-only list: the results hold for every table.
- `extract_paths_from_command` and the lines of a patch: any list of paths. Paths are compared as values; that the standard library ignores repeated slashes is not modelled.
- A working set read back from storage: it may be longer than 20 or hold repetitions until its next accesses.
- The upward walk over parent directories and canonicalisation: the walk is any list of directories, a file has a canonical path given with it. The heading put before each collected file is left out.
- The agent loop, steering, history, compaction, model calls, validators, vision, scheduling and the test harness.
