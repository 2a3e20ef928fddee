# Verified model of the terminal client

The client keeps sessions with an Agent that runs as its child process. This project models the parts where a
mistake would lose something or stop something, and proves what they keep.

- **Completion recovery.** The Agent publishes a truncated directory of completed turns. `Completion` is the state of
  one resident load as a value, `RecoveryStates.RecoveryState` the same state changed in place, `Scheduler` the steps
  of many sessions under shared limits, `Residents.Resident` a session and `Apps.App` the application that take them
  in place. `DiscoveryLaws` and `RecoveryOutcomes` say what a directory and each outcome of a read do to a completion.
  `CompletionLaws`, `SchedulerLaws`, `RecoveryEvidence`, `RecoveryTermination`, `SchedulerFairness`,
  `SchedulerWork` and `SchedulerQuiet` prove that no completion is lost, that the watermark moves only on evidence,
  that reads and statuses correspond, that the limits hold, that automatic recovery ends, that no session starves,
  that no slot is left free while a read is due, and where every completion is once recovery comes to rest; in
  `RecoveryOutcomes` the evidence is carried to every run of the scheduler.
  `PreInstalls` holds snapshots of sessions that are not open yet.
- **Verified paged reads.** `ChunkAssemblers` joins chunks into items, `Assemblies` items into an assembly with a
  memory meter and budgets, `PagedReads` pages into windows, `CatchUps` windows into a backwards catch-up, and
  `TurnReads` the pages of one result, `ToolFacts` the facts it is completed with. The server is an arbitrary function
  of each request; whatever it answers, the accounting holds, and if its chunks are cut from one source per pin, what
  comes out is a slice of that source. `Servings` describes a server that answers in whole items; from it windows,
  catch-ups and results are read whole, within stated means, and every other answer is tied to the reply it comes of.
- **The composer.** `Projections` maps between the text and its display with paste tokens, `Drafts` edits a text with
  atomic paste ranges, `Motions` moves the caret, `Editors` adds undo, redo and recall, `Composers.Composer` is the
  mutable editor, and `PromptRecords` the saved prompts. `EditorText` says what each edit does to characters and
  chips, `LineLaws` where each motion leads on the display, both without the operations themselves.
- **Wrapping and drawing.** `Wraps` cuts a line into words and chunks, `WrapRows` lays them out, `WrapLines` proves
  what whole lines keep. `SafeText` sanitizes and truncates.
- **Calls and lines.** `Rpc` has every atomic section of callers, reader, writer and failures as a step, `RpcLaws`
  proves what all interleavings keep, `RpcShared` is the shared state in place. `Frames` reads bounded lines.
- **Local inputs.** `Ledgers` is the ledger of inputs whose acceptance is not known, with the reservation of a first
  message; `LedgerLaws` and `LedgerOutcomes` prove its limits and how operations leave it, `LedgerAnswers` where their
  text then is; `LocalInputs.App` changes it in place.
- **The scrollbar.** `Scrollbars` is the thumb and its inverse.

Most components have a value model whose functions say what one operation does, methods with the client's loops
proved equal to those functions, and lemmas over all inputs or all runs about the functions.

## What the code does that its documentation does not say

- A display offset of a caret inside a payload does not snap to its token (`src/app/composer.rs:77-78` says it does).
  `ProjectionLaws.InteriorDisplay` says where it goes, `ProjectionLaws.InteriorSnapsIff` exactly when it does snap, and
  `ProjectionLaws.InteriorInRangeIff` exactly when the unsigned subtraction in `Projection::display` stays in range.
- A word motion can put the caret inside a payload. `Motions.WordLeftIsStopIff` and `Motions.WordRightIsStopIff` say
  exactly when, from the text around the caret; `Motions.WordLeftCanEnter` and `Motions.WordRightCanEnter` have drafts
  in which it happens, `Motions.WordLeftCanUnderflow` one in which the subtraction then underflows.
- A forward delete takes no undo snapshot of its own (`src/app/composer.rs:795-810`). `EditorLaws.DeleteIsUndoneIff`
  says exactly when undo still brings the text back, `EditorLaws.DeleteCanBeLost` has a deletion that no undo restores.
- A line that starts with a zero-width word loses that word when another follows. `WrapLines.LossIff` and the last
  postcondition of `WrapLines.WrapLine` say that this is the only loss, where white space takes room and no grapheme
  is wider than a row.
- After a break the white space left out before the row still counts towards its width, so a row can end although its
  next word would fit. `WrapRows.OverflowsIff` states the exact condition of a break, `WrapRows.NeedlessIff` exactly
  when one is needless, and `WrapRows.NeedlessBreak` has a line.
- A scheduling call can leave a load behind although there is room: a session scanned later drops an identity that
  left its catalog while it was read (`src/app/recovery.rs:117-183`). `SchedulerQuiet.FreeSlotMeansFull` proves that
  this is the only way, `SchedulerLeftovers.LeftoverLeavesRoom` has five sessions.
- A page loaded for reading can replace an empty coverage (`src/app/recovery.rs:221-222`), after which no complete
  catch-up at that pin proves the gap. `CatchUps.LoadedPageReachesEndIff` says exactly when,
  `CatchUps.LoadedPageCanStrand` has a page.
- A chunk that contradicts its item's size leaves the chunk assembler advanced. `ChunkLaws.ErrorLeavesUnchangedIff`
  says exactly which errors change nothing, `ChunkLaws.ReuseAfterErrorFails` what going on after another one can give.
- A first message that waits for its session can be replaced by a second submission if a session was opened in
  between (`src/app/actions.rs:193-196`). `LedgerLaws.WaitingIsHonoured` and `LedgerLaws.ReplacedIsLost` say when,
  `LedgerLaws.OnlyOpeningReplaces` why not otherwise, `LedgerLaws.FirstMessageCanBeLost` has a run.

## Model

| member | source | states |
|---|---|---|
| `RecoveryStates.RecoveryState.AcceptRevision` | src/app/recovery.rs:108-114 | takes only a newer revision |
| `RecoveryStates.RecoveryState.Discover` | src/app/recovery.rs:117-183 | the loops apply the directory as the function that `DiscoveryLaws.DiscoveryIsTold` is about says |
| `RecoveryStates.RecoveryState.SettlePrefix` | src/app/recovery.rs:185-193 | the loop computes the settled prefix and nothing else |
| `RecoveryStates.RecoveryState.Record` | src/app/recovery.rs:195-200 | the status of one identity changes, then the settled prefix is removed |
| `RecoveryStates.RecoveryState.DeferUnstarted` | src/app/recovery.rs:202-211 | gives up the newest identity no read was started for, and only that |
| `RecoveryStates.RecoveryState.CoverHistory` | src/app/recovery.rs:213-233 | merges ranges of one pin, replaces another pin only when authoritative |
| `RecoveryStates.RecoveryState.SettleHistoryGap` | src/app/recovery.rs:235-248 | settles the gap exactly when the coverage is complete |
| `RecoveryStates.RecoveryState.Ready` | src/app/recovery.rs:249-260 | finds the oldest identity that is due |
| `RecoveryStates.RecoveryState.RetryLater` | src/app/recovery.rs:277-291 | one more attempt with its back-off, or exhausted past the retry bound |
| `RecoveryStates.RecoveryState.RetryRetained` | src/app/recovery.rs:293-302 | an identity outside the catalog is exhausted, not retried |
| `RecoveryStates.RecoveryState.RetryFailed` | src/app/recovery.rs:304-321 | every failed item gets one new round, all others stay |
| `RecoveryStates.RecoveryState.RetryHistory` | src/app/recovery.rs:323-331 | one more history attempt with its back-off, or exhausted past the retry bound |
| `CompletionLaws.SettlePrefixRuns` | src/app/recovery.rs:185-193 | settling removes exactly the longest settled run above the watermark |
| `CompletionLaws.PruneKeeps` | src/app/recovery.rs:117-150 | pruning keeps every identity a read is in flight for |
| `CompletionLaws.DiscoverKeeps` | src/app/recovery.rs:117-183 | applying a later directory keeps every completion accounted for |
| `CompletionLaws.RecordKeeps` | src/app/recovery.rs:195-200 | recording a status keeps every completion accounted for |
| `CompletionLaws.RetryRetainedKeeps` | src/app/recovery.rs:293-302 | a failed attempt keeps every completion accounted for and every retry within its bound |
| `CompletionLaws.DeferKeeps` | src/app/recovery.rs:202-211 | deferral keeps every completion accounted for, because the load then knows it is behind |
| `CompletionLaws.SettleHistoryGapKeeps` | src/app/recovery.rs:235-248 | settling the catalog gap keeps every completion accounted for |
| `CompletionLaws.NothingIsLost` | src/app/recovery.rs:117-183 | each published sequence is settled, tracked, under the gap, or still in the directory of a load that is behind |
| `RecoveryEvidence.CoverHistoryIsUnion` | src/app/recovery.rs:213-233 | merged coverage of one pin holds exactly the items of both ranges, unless items between them are unread |
| `RecoveryEvidence.CoverageIsVerified` | src/app/recovery.rs:213-233 | over any run, every covered item was in a window verified at the coverage's own pin |
| `RecoveryEvidence.ProvenGapIsVerified` | src/app/read.rs:174-193 | when a gap counts as proven, the coverage is [0, total) of a pin that was read, and every item of it was in some window verified at that same pin |
| `RecoveryEvidence.CoverageIsRead` | src/app/recovery.rs:213-233 | over any run, the coverage's pin is one that some window was read at, also when its history is empty |
| `RecoveryEvidence.WatermarkMovesOnEvidence` | src/app/recovery.rs:185-248 | every sequence under the watermark was recorded as recovered while tracked, or was under the gap when it was settled on a coverage whose whole history was verified at its pin by then |
| `DiscoveryLaws.DiscoveryIsTold` | src/app/recovery.rs:117-183 | for any directory and any sequence: one that left the catalog is dropped unless it is being read; a tracked one gets the directory's description, and if its availability changed a fresh count and its failure forgiven; one above the watermark is taken up as pending, and left out only when the load's identities are used up; what is settled may be passed by the watermark |
| `RecoveryOutcomes.OutcomeSettlesIff` | src/app/recovery.rs:600-749 | for any read in flight: its completion becomes settled exactly when the outcome is a placed complete body, a partial or an unavailable one, with that status; after any other outcome it stays tracked, exhausted if it left the catalog or its fourth attempt failed, else due again 250 ms, 1 s or 4 s later with one more attempt; all other completions stay, and only a body that cannot be ordered asks for the history |
| `RecoveryOutcomes.HistoryOutcomeIsTold` | src/app/recovery.rs:543-598 | a history too large is given up, a failed read is due again or given up after its fourth attempt, and a page settles the gap, passes it and reopens what failed exactly when the gap has not moved and the coverage is now whole |
| `RecoveryOutcomes.GapIsProvenIff` | src/app/recovery.rs:213-248 | the gap is proven exactly when the page and what was known at the same pin hold every item of the history |
| `RecoveryOutcomes.WatermarkMovesOnOutcomes` | src/app/recovery.rs:185-749 | in every reachable state of many sessions: a completion is recorded settled only with the status of an outcome of its own read, and each sequence the watermark passed had such an outcome, or lay below the gap when a page completed the read of a whole history at one pin; all since the session was opened |
| `Apps.App.RecoveryCapacityFor` | src/app/recovery.rs:408-416 | the room the other sessions leave |
| `Apps.App.DeferAnother` | src/app/recovery.rs:475-492 | one other session gives up an unstarted identity |
| `Apps.App.RecoverResident` | src/app/recovery.rs:469-541 | one session is scanned as the model's scheduling step says |
| `Apps.App.RecoverCompletions` | src/app/recovery.rs:436-467 | the loops compute the scheduling call, keep every session lawful and at most one read in flight |
| `Apps.App.Act` | src/app/recovery.rs:543-749 | what an event does to the resident sessions, in place, is the model's handler, and it says whether the scheduler runs |
| `Apps.App.Dispatch` | src/app/recovery.rs:543-749 | an event is handled in place and the scheduler runs where the handler says so: the model's step, keeping every session lawful |
| `Residents.Resident.Recover` | src/app/recovery.rs:494-541 | the directory applied again with the room there is, and at most one read started: the history first, else the oldest due identity |
| `Residents.Resident.OnRecovered` | src/app/recovery.rs:600-749 | the outcome of a turn read in place, as the function that `RecoveryOutcomes.OutcomeSettlesIff` is about says |
| `Residents.Resident.OnHistoryRecovered` | src/app/recovery.rs:543-598 | the outcome of a history read in place, as the function that `RecoveryOutcomes.HistoryOutcomeIsTold` is about says |
| `Residents.Resident.OnOlderPage` | src/app/ops.rs:300-361 | an older page is covered without replacing another pin, and closes an open gap exactly when that proves it |
| `Residents.Resident.OnSnapshot` | src/app/control.rs:184-194 | only a newer revision is taken; its directory is then applied with the room the other sessions leave |
| `SchedulerLaws.RecoverResidentLawful` | src/app/recovery.rs:469-541 | scanning a session keeps identity and read limits, also across the defer-and-grow swap |
| `SchedulerLaws.ScheduledLawful` | src/app/recovery.rs:436-467 | slots left and reads in flight always add up to the limit, so the subtraction never underflows |
| `SchedulerLaws.DeferConsistent` | src/app/recovery.rs:202-211 | deferral removes one unattempted pending identity and no read |
| `SchedulerLaws.OnRecoveredConsistent` | src/app/recovery.rs:600-749 | every outcome of a turn read finds its identity and keeps the session consistent |
| `SchedulerLaws.OnHistoryRecoveredConsistent` | src/app/recovery.rs:543-598 | every outcome of a history read keeps the session consistent |
| `SchedulerLaws.OnOlderPageConsistent` | src/app/ops.rs:296-361 | an older page loaded by the user keeps the session consistent |
| `SchedulerLaws.OnSnapshotConsistent` | src/app/control.rs:184-195 | a snapshot keeps the session and the shared identity budget consistent |
| `SchedulerLaws.NothingIsEverLost` | src/app/recovery.rs:117-248 | in every reachable state of many sessions no published completion is lost, and an open gap has a history read that is not done |
| `SchedulerLaws.ReadsMatchStatuses` | src/app/recovery.rs:469-749 | in every reachable state reads in flight and identities marked as fetching correspond one to one; a history status of fetching means that a history read is in flight |
| `SchedulerLaws.LimitsHold` | src/app/recovery.rs:408-492 | in every reachable state: 256 identities a load, 1024 in all, one read in flight |
| `RecoveryTermination.NextWork` | src/app/recovery.rs:202-341 | each automatic step pays for the reads it starts out of a measure of history attempts and turn attempts left |
| `RecoveryTermination.HistoryStepPays` | src/app/recovery.rs:304-341 | one history step pays for the new round of turn reads it opens |
| `RecoveryTermination.AutomaticRecoveryTerminates` | src/app/recovery.rs:202-749 | with fixed catalogs and no user action, a run of any length starts no more reads than the measure it began with |
| `SchedulerFairness.SchedulingApproaches` | src/app/recovery.rs:436-467 | a call with a free slot serves a willing session or brings the rotation strictly closer to it |
| `SchedulerFairness.AdmissionsShorten` | src/app/recovery.rs:436-467 | each admission of another session uses up one of those ahead |
| `SchedulerWork.ScanIdles` | src/app/recovery.rs:469-541 | a scan that starts nothing leaves its session without due work and takes none of that from sessions scanned in vain before |
| `SchedulerWork.FreeSlotMeansIdle` | src/app/recovery.rs:436-467 | a scheduling call leaves a slot free only when no session has a due identity, nor a due history whose read is not running |
| `SchedulerWork.NothingWaits` | src/app/recovery.rs:436-467 | in every reachable state a scheduling step leads to: some read is in flight, or nothing of any session is due |
| `SchedulerQuiet.ScanServes` | src/app/recovery.rs:469-541 | a session with a due identity, or with one left out although there is room, gets a read when it is scanned |
| `SchedulerQuiet.VainScanKeeps` | src/app/recovery.rs:469-541 | such a session still wants a read after others were scanned in vain, also if it had to give up an identity to them |
| `SchedulerQuiet.FreeSlotMeansFull` | src/app/recovery.rs:436-467 | over sessions without identities that left their catalog, a call leaves a slot free only if nothing is due and an identity is left out only for want of room |
| `SchedulerQuiet.RecoveryComesToRest` | src/app/recovery.rs:436-541 | in every reachable state with no read in flight and no retry waiting: a published completion is settled, has failed for good, is below a gap whose history has, or is in the directory of a load that is behind, and in a run without such leftovers only because its 256 or the 1024 identities are used up |
| `SchedulerLeftovers.LeftoverLeavesRoom` | src/app/recovery.rs:436-467 | five lawful sessions, one with an identity that left its catalog, over which one call leaves a load behind although there is room, with nothing due |
| `SchedulerFairness.RotationIsFair` | src/app/recovery.rs:436-467 | of n sessions a willing one is passed over at most n - 1 times |
| `PreInstalls.PreInstall.Hold` | src/app/recovery.rs:374-391 | a newer held snapshot wins; otherwise the session's older one goes and the newest that fit stay |
| `PreInstalls.PreInstall.Take` | src/app/recovery.rs:393-400 | takes the session's snapshot and leaves the others in order |
| `PreInstalls.EvictionIsLeast` | src/app/recovery.rs:383-390 | eviction drops no snapshot that could have been kept with all newer ones |
| `ChunkAssemblers.ChunkAssembler.Push` | src/protocol/read.rs:198-286 | the assembler in place equals the pushing of a chunk as a value |
| `ChunkLaws.AssemblyUndoesSplitting` | src/protocol/read.rs:198-286 | any accepted cut of an item assembles to exactly that item, or is reported oversized with nothing buffered |
| `ChunkLaws.OnlySplitsAssemble` | src/protocol/read.rs:198-286 | an item only ever comes from the gap-free chunks of an item of the declared size |
| `ChunkLaws.SplitAcceptedIff` | src/protocol/read.rs:198-286 | a cut is accepted exactly when no piece is empty, or there is only one piece |
| `ChunkLaws.ErrorLeavesUnchangedIff` | src/protocol/read.rs:198-286 | an error leaves the assembler unchanged exactly when the chunk was refused, or met an open item and brought no bytes or more than can be counted; only refusals and contradicted sizes are errors |
| `ChunkLaws.ReuseAfterErrorFails` | src/protocol/read.rs:198-286 | after a contradiction of sizes, going on with the same assembler can yield a short item |
| `Assemblies.ReadWorkspace.Charge` | src/app/read.rs:49-58 | refuses exactly what would pass the limit and then charges nothing |
| `Assemblies.ReadWorkspace.Release` | src/app/read.rs:60-64 | what is released was charged beyond the reserve |
| `Assemblies.ReadWorkspace.Reset` | src/app/read.rs:66-69 | everything but the page reserve is given back |
| `Assemblies.HistoryPageBound` | src/app/read.rs:239-248 | takes one page off the budget unless pages or bytes are used up |
| `Assemblies.ChargeHistoryBytes` | src/app/read.rs:250-254 | the bytes of an accepted page never exceed the budget |
| `Assemblies.Assembly.Reserve` | src/app/read.rs:380-398 | an item is paid for when its first chunk arrives |
| `Assemblies.Assembly.KeepItem` | src/app/read.rs:409-426 | a decoded item keeps only its own heap charged |
| `Assemblies.Assembly.Push` | src/app/read.rs:369-438 | takes exactly the chunk that continues the assembly; the charges always cover what is held, and a whole item that can be read is taken whenever its memory is there |
| `Assemblies.NextSound` | src/app/read.rs:369-438 | each accepted chunk moves the cursor strictly on |
| `Assemblies.NextTracks` | src/app/read.rs:369-438 | after honest chunks the kept items are the source items since the start |
| `PagedReads.PageEnd` | src/app/read.rs:440-457 | accepts a page exactly when it made progress and its cursor is where the assembly stands |
| `PagedReads.MergeRecords` | src/app/read.rs:832-842 | new turn records are charged once; with one record a turn before, there is one a turn after, and the only error is a record that says something else of its turn |
| `PagedReads.FetchPage` | src/app/read.rs:811-831 | asks for the items from the position on, at most a page of them and none past the end; an accepted page is within its byte bound, paid for, and of the same pin, and a page that is served whole is accepted |
| `PagedReads.ReadPages` | src/app/read.rs:775-856 | the page loop ends, with every page counted and every byte charged; the window is asked for from its start unless the budget admits no page, and with pages, bytes and memory enough the loop reads all of it with one page for twenty items |
| `PagedReads.ReadWindow` | src/app/read.rs:775-856 | a complete window is exactly the source slice, a limited one a proper prefix of it, for any way the server cuts; it is asked for unless its memory is refused or the budget admits no page, and a window that is served whole and paid for is complete; items stay within their reservation if that is the whole window, if no page is left, or if no page holds more chunks than asked for |
| `CatchUps.ReadBackwards` | src/app/read.rs:700-740 | first the page of items that ends there is asked for, unless its memory is refused or the budget admits no page, and only then the last item alone; a page that is served whole and paid for is the window, with one page of the budget and its own bytes |
| `CatchUps.ReadCatchup` | src/app/read.rs:684-773 | backwards pages joined and reversed are exactly the source from where they stopped to the end; cut short only after the page that ends there and the item below it were asked for or could not be; if the server answers in whole items, the bytes and the memory suffice and a page is left for every twenty items, the answer is complete and took no page more |
| `CatchUps.Probe` | src/app/read.rs:617-664 | one call, and its answer counts exactly if it is for the session and the view asked for, within the bound, and starts at the first item of its pin |
| `CatchUps.Attempt` | src/app/read.rs:534-581 | one attempt: a probe, then only requests at the pin it gave; a refusal is its error, and a window that is served whole and paid for by the budget it is left with is complete at that pin |
| `CatchUps.ReadHistory` | src/app/read.rs:524-611 | one catch-up with its restart makes at most 64 calls and charges at most 16 MiB; every page is a slice of its source, the very range the window asks for or for a limited catch-up the end of it; it probes again exactly after a refusal for a stale pin, unless the budget is used up, and only once; any other refusal is its answer; and a window that is served whole and fits a round is complete |
| `CatchUps.RoundSuffices` | src/app/read.rs:524-611 | up to 1260 items that are served whole fit a round, if their bytes leave room for two probes and their memory is within the limit beside what the round reserves |
| `CatchUps.CatchUpJoinsCoverage` | src/app/read.rs:684-773 | what a catch-up answers joins the coverage it was told of: at an unchanged pin no item between them stays unread, at a new pin it is replaced, and the gap is proven exactly if the answer is complete and the coverage reached the end |
| `CatchUps.CatchUpsProveTheGap` | src/app/read.rs:684-773 | over any catch-ups in a row, cut short, retried or at new pins, the coverage reaches the end of its history, and it is whole exactly if the last one was complete |
| `CatchUps.LoadedPageReachesEndIff` | src/app/ops.rs:300-361 | a page loaded by the user keeps that up exactly unless it ends below the total and meets an empty coverage at its own pin |
| `CatchUps.LoadedPageCanStrand` | src/app/ops.rs:300-361 | a coverage and a loaded page after which a complete catch-up at that pin leaves two items unread and proves nothing |
| `TurnReads.FetchTurnPage` | src/app/read.rs:868-956 | the reply decides: a page with a body for this turn and load, under the identity of the pages before, is taken; a refusal is its own error, an expired result and a page that says it is gone are unavailable with the facts they bring, a pending one is pending only as the first reply, and any other page is an error |
| `TurnReads.TakeTurnPage` | src/app/read.rs:966-971 | the page's chunks continue the assembly and its cursor matches |
| `TurnReads.ReadResult` | src/app/read.rs:859-987 | a whole result is exactly the source of one result identity, with all items of this turn; requests resume strictly further on; all replies but the last were pages of that result and the last one decides the answer |
| `TurnReads.AnswerIff` | src/app/read.rs:888-956 | the answer is unavailable exactly if the last reply says expired or gone, pending exactly if the only reply says so, and an error of the server exactly if the last reply is that refusal; every earlier reply has the same identity |
| `ToolFacts.ReadToolFacts` | src/app/read.rs:988-1045 | exactly the first 64 calls without a result are asked for, in order; the facts kept are the answers they got, every one is paid for, only an answer that cannot be decoded is an error, and answers that decode and fit are all kept |
| `TurnReads.ReadTurn` | src/app/read.rs:859-1045 | a whole result is the source of one result identity, completed with the facts of its first 64 open calls; the last reply decides the answer as `TurnReads.AnswerIff` says; and a server that serves a result in whole items that can be read gets it returned whole, if it fits the memory with the answers about its calls |
| `Projections.DisplayedText` | src/app/composer.rs:65-76 | the loop shows the text with a token for each paste |
| `Projections.DisplayOffset` | src/app/composer.rs:79-91 | the loop computes the display offset |
| `Projections.RawOffset` | src/app/composer.rs:94-112 | the loop computes the buffer offset |
| `ProjectionLaws.RawUndoesDisplay` | src/app/composer.rs:79-112 | from a buffer stop to the display and back |
| `ProjectionLaws.DisplayUndoesRaw` | src/app/composer.rs:79-112 | from a display offset to the buffer and back exactly outside tokens; every display offset leads to a stop |
| `ProjectionLaws.DisplayAscends` | src/app/composer.rs:79-91 | stops are shown in their order, both ways |
| `ProjectionLaws.DisplayShowsText` | src/app/composer.rs:65-91 | outside payloads the display shows the buffer's own character |
| `ProjectionLaws.RawIsInBounds` | src/app/composer.rs:94-112 | a display offset never leads past the text |
| `ProjectionLaws.InteriorDisplay` | src/app/composer.rs:79-91 | where an offset inside a payload is shown, for all pastes |
| `ProjectionLaws.InteriorSnapsIff` | src/app/composer.rs:77-91 | it snaps to its token's start exactly when another paste follows and the rest of the payload is as long as the label |
| `ProjectionLaws.InteriorInRangeIff` | src/app/composer.rs:79-91 | the subtraction stays in range exactly when no paste follows or the rest of the payload is no longer than the display up to the token's end |
| `ProjectionLaws.InteriorDoesNotSnap` | src/app/composer.rs:79-91 | two pastes for which it is not shown at its token's start, and would be shown before the display begins |
| `PromptRecords.AnyRecordIsValid` | src/app/composer.rs:168-203 | whatever a history record holds, it loads as a valid prompt |
| `PromptRecords.RecordsRoundTrip` | src/app/composer.rs:168-217 | a saved prompt without byte order marks loads with its text and chips |
| `DraftLaws.ClosureIsSmallest` | src/app/composer.rs:884-892 | an erased range grows to the smallest one closed over the payloads it touches |
| `DraftLaws.EraseValid` | src/app/composer.rs:884-907 | erasing removes exactly that range and leaves a valid draft |
| `DraftLaws.SurvivorOf` | src/app/composer.rs:896-904 | what is left of the chips are those outside the range, moved |
| `DraftLaws.SurvivorIsKept` | src/app/composer.rs:896-904 | every chip outside the range is left, moved with the text |
| `DraftLaws.SurvivorKeepsPayload` | src/app/composer.rs:896-904 | a chip outside the range keeps its payload and its label |
| `DraftLaws.InsertValid` | src/app/composer.rs:567-623 | inserting at a stop moves the chips behind it and leaves a valid draft |
| `DraftLaws.PastingInserts` | src/app/composer.rs:567-583 | pasting is inserting, with one more chip over exactly the pasted text when it is large |
| `DraftLaws.TypePastedValid` | src/app/composer.rs:567-583 | pasting over a selection leaves a valid draft |
| `DraftLaws.StepsAreStops` | src/app/composer.rs:635-663 | a step left or right lands outside payloads |
| `Motions.WordLeftIsStopIff` | src/app/composer.rs:704-732 | a word motion to the left lands in a payload exactly when the caret is not behind a chip and the blanks it skips run into a payload that also has a blank before the word they lead to |
| `Motions.WordLeftCanEnter` | src/app/composer.rs:704-732 | after pasting a text of thirty lines and typing a space the word motion to the left lands inside the payload, and the caret is shown behind the token |
| `Motions.PastedDraftIs` | src/app/composer.rs:567-600 | that draft comes of the paste and the space, and the text is large enough for a chip |
| `Motions.WordLeftCanUnderflow` | src/app/composer.rs:79-91 | with the same text pasted again behind the space, the word motion from between the two lands where the display offset falls below zero |
| `Motions.TwicePastedDraftIs` | src/app/composer.rs:567-600 | that draft comes of a second paste and one step to the left |
| `Motions.WordRightIsStopIff` | src/app/composer.rs:734-759 | a word motion to the right lands in a payload exactly when the blanks it skips begin a payload that is not all blank |
| `Motions.WordRightCanEnter` | src/app/composer.rs:734-759 | with a text of twelve lines pasted behind a word and a space, the word motion to the right from the start lands inside the payload |
| `Motions.TypedAndPastedDraftIs` | src/app/composer.rs:567-600 | that draft comes of typing, pasting and going to the start |
| `Motions.DisplayMotionIsStop` | src/app/composer.rs:966-1008 | home, end, up and down land outside payloads |
| `Motions.LinesExist` | src/app/composer.rs:966-1008 | each displayed line up to the caret's has a start in the display |
| `EditorLaws.TrimKeepsNewest` | src/app/composer.rs:493-506 | the undo bounds drop only the oldest steps |
| `EditorLaws.RecordedEditIsUndone` | src/app/composer.rs:472-534 | one undo takes a recorded edit back to where its gesture started; a gesture that left the text alone is no step |
| `EditorLaws.RedoUndoesUndo` | src/app/composer.rs:526-543 | a redo takes back an undo: text, caret, anchor, chips and both stacks |
| `EditorLaws.UndoUndoesRedo` | src/app/composer.rs:526-543 | an undo takes back a redo |
| `EditorLaws.UndoAndRedoAreInverse` | src/app/composer.rs:526-543 | k undos and k redos restore text, caret, anchor, chips and both stacks |
| `EditorLaws.ApplyKeeps` | src/app/composer.rs:353-960 | every operation keeps the chips intact, the caret outside payloads and the undo bounds |
| `EditorLaws.ReachableIsValid` | src/app/composer.rs:353-960 | in every reachable state chips are ordered payloads with their own labels, the caret is outside them, undo and redo hold at most 200 steps together, and an open gesture leaves nothing to redo |
| `EditorLaws.SessionIsValid` | src/app/composer.rs:353-960 | so they do after any operations on an empty composer |
| `EditorLaws.EditsAreUndone` | src/app/composer.rs:547-880 | for any editor and any edit that takes a snapshot: one undo leads to the draft before it, or, if the edit joins an open typing gesture, to where that gesture started; only a gesture that ends with its first text leaves no step |
| `EditorLaws.DeleteIsUndoneIff` | src/app/composer.rs:795-810 | for any editor: a forward delete leaves both committed stacks alone, and undo brings the text back exactly when no open gesture changed it and the newest undo step has the same text |
| `EditorLaws.DeleteCanBeLost` | src/app/composer.rs:795-810 | a forward delete that no undo brings back |
| `EditorLaws.RestoreUndoesTake` | src/app/composer.rs:416-459 | a taken submission is put back with its chips, undo and redo |
| `EditorLaws.RecallComesBack` | src/app/composer.rs:912-949 | for any number of steps back and forth: each step shows the prompt that is as old as that, and the last one back the live draft with its chips |
| `EditorText.TypingSplices` | src/app/composer.rs:547-612 | pasting, typing a character and a new line put their text in place of the selection, and nothing else changes: the caret is behind it, each chip outside is kept and moved with the text, and only large pasted text becomes a new chip |
| `EditorText.SelectionIsDeleted` | src/app/composer.rs:761-880 | any deletion with a selection takes exactly the selection with its chips |
| `EditorText.BackspaceCuts` | src/app/composer.rs:779-793 | a backspace takes exactly the chip that ends at the caret, or else the one character before it; the caret is where that began |
| `EditorText.DeleteCuts` | src/app/composer.rs:795-810 | a forward deletion takes exactly the chip that starts at the caret, or else the one character behind it |
| `EditorText.WordEndIs` | src/app/composer.rs:835-847 | a word deletion to the right reaches to the end of the word or chip behind the blanks |
| `EditorText.WordDeletesCut` | src/app/composer.rs:812-847 | deleting a word takes exactly the blanks and the word or chip beside them, in the smallest range of stops that holds them |
| `LineLaws.StepsAre` | src/app/composer.rs:635-663 | left and right lead to the end of the selection on that side, or else over one chip or one character |
| `LineLaws.EndsAre` | src/app/composer.rs:665-677 | home and end lead to the start and the end of the displayed line the caret is on |
| `LineLaws.WordsAre` | src/app/composer.rs:704-759 | the word motions lead past the blanks and one word or chip, in terms of blanks and chips only |
| `LineLaws.UpIs` | src/app/composer.rs:679-690 | up leads into the displayed line above, as far as the kept column goes, to the start of the chip whose token holds that place; and nowhere from the first line |
| `LineLaws.DownIs` | src/app/composer.rs:692-702 | down leads into the displayed line below in the same way; and nowhere from the last line |
| `LineLaws.LineDeletesCut` | src/app/composer.rs:849-880 | deleting to the start or the end of a line takes exactly what lies between that and the caret |
| `Composers.Composer.CloseGesture` | src/app/composer.rs:493-506 | the trimming loop keeps the newest steps within both bounds |
| `Composers.Composer.Undo` | src/app/composer.rs:526-534 | in place, as the editor value says; false exactly when there is nothing to undo |
| `Composers.Composer.Redo` | src/app/composer.rs:536-543 | in place, as the editor value says |
| `Composers.Composer.EraseRange` | src/app/composer.rs:884-907 | the loops close the range, remove the chips in it and move the others |
| `Composers.Composer.Insert` | src/app/composer.rs:547-583 | pastes over the selection, with a chip when the text is large, as one step |
| `Composers.Composer.TypeChar` | src/app/composer.rs:585-600 | types one character over the selection and leaves the gesture open |
| `Composers.Composer.Newline` | src/app/composer.rs:602-612 | a new line over the selection, as a step of its own |
| `Composers.Composer.Backspace` | src/app/composer.rs:779-793 | in place, as the function that `EditorText.BackspaceCuts` is about says, as one step |
| `Composers.Composer.Delete` | src/app/composer.rs:795-810 | in place, as the function that `EditorText.DeleteCuts` is about says, without a snapshot of its own |
| `Composers.Composer.DeleteWordLeft` | src/app/composer.rs:812-822 | deletes over blanks and one word or chip, the range closed over chips it enters |
| `Composers.Composer.DeleteWordRight` | src/app/composer.rs:825-847 | deletes over blanks and one word or chip, the range closed over chips it enters |
| `Composers.Composer.MoveWordLeft` | src/app/composer.rs:704-732 | the loops compute the word motion; it lands on a stop exactly under the stated condition |
| `Composers.Composer.MoveWordRight` | src/app/composer.rs:734-759 | the loops compute the word motion; it lands on a stop exactly under the stated condition |
| `Composers.Composer.MoveUp` | src/app/composer.rs:679-690 | up one displayed line; false exactly on the first |
| `Composers.Composer.MoveDown` | src/app/composer.rs:692-702 | down one displayed line; false exactly on the last |
| `Composers.Composer.TakeSubmission` | src/app/composer.rs:416-433 | takes text, chips, undo and redo |
| `Composers.Composer.RestoreSubmission` | src/app/composer.rs:452-459 | puts text, chips, undo and redo back |
| `Composers.Composer.HistoryPrev` | src/app/composer.rs:912-932 | recalls the prompt before |
| `Composers.Composer.HistoryNext` | src/app/composer.rs:934-947 | recalls the prompt after, or the draft |
| `Wraps.CharBreaks` | src/wrap.rs:20-36 | consecutive chunks of the line, each ending only because the next grapheme does not fit |
| `Wraps.SplitWord` | src/wrap.rs:90-101 | the pieces of a word wider than a row |
| `Wraps.Units` | src/wrap.rs:78-106 | words with the white space before them, covering the line; each fits a row |
| `WrapRows.LaidFits` | src/wrap.rs:51-71 | no row is wider than the limit |
| `WrapRows.LaidForced` | src/wrap.rs:51-71 | a row ends only when its next word overflows the limit together with everything since the end of the row before |
| `WrapRows.OverflowsIff` | src/wrap.rs:56-61 | a word starts a row of its own exactly when something is counted and everything since the end of the row before, white space left out included, is too wide with it |
| `WrapRows.NeedlessIff` | src/wrap.rs:56-70 | a row is left although the word would fit exactly when the word fits beside the row but not beside what was left out before the row as well |
| `WrapRows.NeedlessBreak` | src/wrap.rs:56-70 | three short words on three rows of three cells, although the last two fit on one |
| `WrapRows.LaidFaithful` | src/wrap.rs:51-71 | the rows show every visible grapheme in order exactly when no word is dropped |
| `WrapRows.LaidStarts` | src/wrap.rs:56-70 | rows after the first start at a word, the first at its white space when its word fits beside it |
| `WrapLines.DropsIff` | src/wrap.rs:62-69 | a word is dropped exactly when the first one takes no room and another follows |
| `WrapLines.LossIff` | src/wrap.rs:62-69 | where white space takes room, a word is lost exactly when the line starts with a zero-width word and another word follows |
| `WrapLines.Breaks` | src/wrap.rs:40-74 | rows in order and disjoint, within the limit once trimmed, no break unless the counted width overflows, every word placed where the exact condition says; when every visible grapheme takes room nothing visible is lost, rows start at words and leading white space stays where it fits |
| `WrapLines.WrapLine` | src/wrap.rs:109-114 | the texts are the trimmed rows of such a layout; they fit and keep the visible text, exactly unless the line starts with a zero-width word |
| `WrapLines.LeadingWordCanVanish` | src/wrap.rs:62-69 | a line whose leading zero-width word is in no row |
| `SafeText.Sanitize` | src/wrap.rs:199-222 | the loop strips sequences and shows controls as pictures; the output is safe, and safe text is unchanged |
| `SafeText.OutputIsSafe` | src/wrap.rs:199-283 | for every input no control, mark or direction override is in the output |
| `SafeText.SanitizingIsIdempotent` | src/wrap.rs:199-222 | sanitizing twice is sanitizing once |
| `SafeText.Truncate` | src/wrap.rs:301-321 | at most the width; the longest start that fits beside the ellipsis |
| `SafeText.Clip` | src/wrap.rs:285-298 | with room for the suffix and more than two cells: exactly the width, the suffix at the end, at least one space before it, and of the text the longest start that fits; else the text truncated to the width |
| `RpcShared.Shared.Register` | src/rpc.rs:244-252 | the closed check and the insertion are one section |
| `RpcShared.Shared.TakeTarget` | src/rpc.rs:430-434 | the reader takes the sender of a response's id |
| `RpcShared.Shared.Fail` | src/rpc.rs:521-537 | the first failure sets the reason and clears the calls |
| `RpcLaws.NextSound` | src/rpc.rs:226-280 | every atomic section of caller, reader, writer and failure keeps the invariant |
| `RpcLaws.ClosedForGood` | src/rpc.rs:521-537 | the first close reason is kept, and nothing is registered after it |
| `RpcLaws.ClearedForGood` | src/rpc.rs:521-537 | after the first failure has finished there are no registered calls, ever |
| `RpcLaws.AnsweredAtMostOnce` | src/rpc.rs:430-434 | in every interleaving a call is answered at most once |
| `RpcLaws.QueuedCallReturnsDelivery` | src/rpc.rs:272-279 | a call whose line was queued returns exactly what was delivered to it, if anything was |
| `RpcLaws.AnsweredByOwnId` | src/rpc.rs:430-434 | an answer carries the id of the call it answers, and no other call has that id |
| `RpcLaws.ResponseReachesCaller` | src/rpc.rs:412-445 | in every interleaving a response that comes in while its id is registered is held for that call until the next delivery and then is what the call returns, unless its caller gave up |
| `RpcLaws.RejectedIffNeverQueued` | src/rpc.rs:226-341 | a client-made error says rejected exactly for a push whose line was not and never will be queued |
| `RpcLaws.NobodyWaitsForever` | src/rpc.rs:272-279 | after a failure every waiting call can return |
| `RpcLaws.NothingLeaks` | src/rpc.rs:75-79 | a call that is over leaves no registration |
| `RpcLaws.LossTellsFirstReason` | src/rpc.rs:272-279 | a call that loses its answer reports the first reason |
| `Frames.ReadLine` | src/rpc.rs:456-481 | the line read depends on the bytes, not on how they arrived, and stays within the bound |
| `Frames.ReadFrames` | src/rpc.rs:412-453 | exactly the frames before the first one that cannot be decoded or handed on, or all of them; what is handled and what ends it depend on the bytes and not on how they arrived |
| `Frames.StopIsUnique` | src/rpc.rs:412-453 | a stream has one place to stop and one reason |
| `Frames.ReadingUndoesWriting` | src/rpc.rs:351-365 | frames written one to a line are read back |
| `LocalInputs.App.LocalInputBytes` | src/app/unconfirmed.rs:73-81 | the loop adds up what is retained |
| `LocalInputs.App.LocalInputRoom` | src/app/unconfirmed.rs:83-86 | the room left is never negative |
| `LocalInputs.App.PushLocalInput` | src/app/unconfirmed.rs:88-130 | the undo history goes first, then the push is refused back to an empty composer |
| `LocalInputs.App.SubmitEntry` | src/app/actions.rs:176-212 | an entry goes to the open session, or is reserved with its text for a new one, or back to the composer |
| `LocalInputs.App.SubmitComposer` | src/app/actions.rs:145-170 | the guards before a submission takes the draft; a blank draft steers by resuming a paused queue |
| `LocalInputs.App.Adopt` | src/app/ops.rs:118-153 | a created session takes the message that waited for it |
| `LocalInputs.App.AdoptFailed` | src/app/ops.rs:127-133 | the message that waited for a session that could not be created goes to the composer, behind a draft typed meanwhile, or to the session's view |
| `LocalInputs.App.PhoneCreated` | src/app/remote/pending.rs:130-215 | a phone's session request ends: nothing is loading any more, and where the phone kept the foreground its session is shown, with the draft that was typed meanwhile if it became that session |
| `LocalInputs.App.OnLocalPushed` | src/app/unconfirmed.rs:132-194 | in place, as the function that `LedgerAnswers.AnswerIsHonoured` is about says |
| `LocalInputs.App.ResendLocalInput` | src/app/unconfirmed.rs:234-292 | sends the input again as a new operation and keeps the original; an edited text that cannot be sent goes back to its buffer |
| `LocalInputs.App.ForgetLocalInput` | src/app/unconfirmed.rs:392-404 | removes the operation under review |
| `LedgerLaws.NextFine` | src/app/unconfirmed.rs:73-194 | every step keeps both limits |
| `LedgerLaws.LimitsHold` | src/app/unconfirmed.rs:73-194 | over any run at most 64 operations and 16 MiB are retained |
| `LedgerLaws.AdoptionIsNeverRefused` | src/app/ops.rs:142-146 | in every reachable state the reserved first message is pushed as it was submitted |
| `LedgerLaws.FailedFirstIsRestored` | src/app/ops.rs:127-133 | a first message whose session could not be created comes back |
| `LedgerLaws.WaitingIsHonoured` | src/app/actions.rs:176-212 | unless a step replaces it, a waiting first message waits on, is pushed whole to the session made for it, or is given back to the composer or the session's view |
| `LedgerLaws.ReplacedIsLost` | src/app/actions.rs:193-196 | a replacing step leaves it nowhere |
| `LedgerLaws.OnlyOpeningReplaces` | src/app/actions.rs:152-154 | no step replaces it unless the client itself asked to open a session meanwhile, whatever phones asked for and whichever sessions were deleted |
| `LedgerLaws.FirstMessageCanBeLost` | src/app/actions.rs:193-196 | a run of submissions and a failing open request after which the first message is in no operation, reservation or draft |
| `LedgerOutcomes.LeavesOnlyResolved` | src/app/unconfirmed.rs:132-194 | over any run an operation is still there exactly if no receipt, restoration or forget resolved it |
| `LedgerOutcomes.KeptAsSent` | src/app/unconfirmed.rs:132-194 | an operation that was not resolved has the text, chips, target, mode and origin it was sent with, over any run |
| `LedgerOutcomes.SendingIsNeverForgotten` | src/app/unconfirmed.rs:392-404 | an operation still being sent cannot be forgotten |
| `LedgerOutcomes.SubmissionIsHeld` | src/app/actions.rs:145-212 | a submitted text is in an operation, in a reservation or in the composer |
| `LedgerAnswers.AnswerIsHonoured` | src/app/unconfirmed.rs:132-194 | a confirming receipt removes the operation, leaves the draft and makes its text the newest prompt to recall; a refusal puts text, chips, undo and redo back into a composer that is untouched and still shows the session, and otherwise marks the operation rejected; any other answer marks it unconfirmed; nothing else changes |
| `LedgerAnswers.LateAnswerIsIgnored` | src/app/unconfirmed.rs:132-194 | an answer to an operation that is gone or was answered changes nothing |
| `LedgerAnswers.ResendIsHonoured` | src/app/unconfirmed.rs:234-292 | a resend keeps the operation and sends the text as a new one that names it; an edited text that cannot be sent is back in its buffer with its chips and undo steps |
| `LedgerAnswers.GoneIsAccountedFor` | src/app/unconfirmed.rs:132-404 | over any run, an operation that is gone was confirmed, was shown in the composer at the step it left, or was forgotten by the user |
| `Scrollbars.RoomIsLess` | src/app/scrollbar.rs:17-25 | the thumb has no more room to move than the view |
| `Scrollbars.DragIsExact` | src/app/scrollbar.rs:17-36 | dragging the thumb to a row scrolls to where it is drawn on that row |
| `Scrollbars.DragIsClamped` | src/app/scrollbar.rs:28-36 | a drag past an end stops there |
| `Scrollbars.ThumbFollowsScroll` | src/app/scrollbar.rs:17-25 | the thumb follows the scroll position, inside the track, from end to end |

## Left out

- Tasks, channels, timers and pipes: a step happens at any time, a pending task is an outcome, an instant is a number.
- JSON decoding and its memory estimates: parameters of the read model, any functions at all.
- The remote server: any answer to any request; the source it reads from is a ghost parameter.
- Transcript and session bodies: whether a body was placed, or could not be ordered, is a parameter of the outcome.
- Unicode segmentation: one character is one grapheme in the composer; wrapping works on graphemes with given widths.
- Normalisation of inserted text (`src/app/composer.rs:219-230`): the composer is given normalised text.
- Integer widths other than the chunk offset: sizes and counts are unbounded, so a charge past the machine's range is refused by the limit instead of by a checked multiplication.
- Allocation failure: every reservation of memory succeeds.
- Capacity of buffers: taken as their length.
- The read permits of the client and its shutdown sequence: a failure can happen at any step, which covers the shutdown's own.
- Key handling of the review overlay beyond its modes, and the size bound of its edit buffer while typing.
- Styled wrapping, find, pickers, diff view, titles, templates and themes: they would only add easy members.
- PagedReads.ReadWindow: when less than the window is reserved, the bound on its items needs a server whose pages hold no more chunks than asked for; the client does not check that count, so another server can outgrow the reservation.
- LedgerLaws.FailedFirstIsRestored: needs a valid composer, which `EditorLaws.ReachableIsValid` gives for every run of the editor.
- EditorLaws.ReachableIsValid: a word motion is part of a run only where it stays outside payloads; the two word motion lemmas say exactly where it does.
- SchedulerLaws.ReadsMatchStatuses: a history read can be in flight while the status is no longer fetching, because a later directory can raise the gap and make the history pending again; so only one direction holds for history.
- Apps.App.Act: the transcript, notices and control requests of a handler are not part of it.
- LedgerLaws.OnlyOpeningReplaces: a phone's request starts only while nothing is loading, as the client refuses it otherwise; who may open what is not part of the model.
- SchedulerQuiet.RecoveryComesToRest: that the limits are used up is stated for runs without leftovers; `SchedulerLeftovers.LeftoverLeavesRoom` is a lawful state, not a whole run.
- CatchUps.ReadHistory: that a served window is complete is stated for the attempt it begins with; `CatchUps.Attempt` states it for any attempt and the budget that one is left with.
- TurnReads.ReadTurn: that a result is read whole is, as for windows and catch-ups, stated for servers that answer in whole items; for servers that cut items over pages the slice and the accounting are proved, and the means a read then needs depend on the cuts.
